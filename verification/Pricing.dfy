/** `build_proposal`, in exact arithmetic: a chain of guards that a match has to pass before a
    price is proposed for review. */
module Pricing {
  import opened Common
  import opened Catalogue

  datatype Rule = Rule(approved: bool, multiplier: real)

  datatype Vat = Included | Excluded | Unknown

  /** The rates are rubles per unit of a currency. */
  datatype PricingContext = PricingContext(rates: map<string, real>, rule: Option<Rule>, maxDelta: real, vat: Vat)

  datatype ProposalStatus =
    | ReadyForReview | BlockedMatch | BlockedSourcePrice | BlockedCurrency | BlockedVatBasis
    | BlockedMissingMarkup | BlockedMarkup | BlockedCurrentPrice | BlockedDelta

  datatype Quote = Quote(rate: real, cost: real, calculated: real, proposed: real, deltaAbs: real,
                         deltaPct: Option<real>)

  datatype PriceProposal = PriceProposal(
    product: Option<int>,
    id: string,
    current: real,
    source: real,
    currency: string,
    quote: Option<Quote>,
    confidence: real,
    status: ProposalStatus,
    warnings: seq<string>)

  function Blocked(item: SupplierItem, m: MatchRecord, current: real, status: ProposalStatus,
                   warning: string): PriceProposal {
    PriceProposal(m.product, item.id, current, item.price, item.currency, None, m.confidence, status, [warning])
  }

  function Abs(x: real): real { if x < 0.0 then -x else x }

  function BuildProposal(item: SupplierItem, m: MatchRecord, current: real, context: PricingContext): PriceProposal {
    if m.status != Exact || m.product.None? then Blocked(item, m, current, BlockedMatch, "match_not_exact")
    else if item.price <= 0.0 then Blocked(item, m, current, BlockedSourcePrice, "nonpositive_source_price")
    else if item.currency !in {"RUB", "RUR"} then Blocked(item, m, current, BlockedCurrency, "currency_not_approved")
    else if item.currency !in context.rates || context.rates[item.currency] <= 0.0 then
      Blocked(item, m, current, BlockedCurrency, "missing_or_invalid_exchange_rate")
    else if context.rates[item.currency] != 1.0 then
      Blocked(item, m, current, BlockedCurrency, "currency_parity_not_approved")
    else if context.vat == Unknown then Blocked(item, m, current, BlockedVatBasis, "vat_basis_unknown")
    else if context.rule.None? || !context.rule.value.approved then
      Blocked(item, m, current, BlockedMissingMarkup, "markup_policy_not_approved")
    else if context.rule.value.multiplier <= 0.0 then Blocked(item, m, current, BlockedMarkup, "invalid_markup_rule")
    else
      var rate := context.rates[item.currency];
      var cost := item.price * rate;
      var calculated := cost * context.rule.value.multiplier;
      var deltaAbs := calculated - current;
      var deltaPct := if current > 0.0 then Some(deltaAbs / current) else None;
      var verdict :=
        if deltaPct.None? then (BlockedCurrentPrice, ["nonpositive_current_price"])
        else if Abs(deltaPct.value) > context.maxDelta then (BlockedDelta, ["delta_exceeds_limit"])
        else (ReadyForReview, []);
      PriceProposal(m.product, item.id, current, item.price, item.currency,
                    Some(Quote(rate, cost, calculated, calculated, deltaAbs, deltaPct)),
                    m.confidence, verdict.0, verdict.1)
  }

  lemma Scale(x: real, y: real, limit: real)
    requires y > 0.0
    ensures Abs(x / y) <= limit <==> Abs(x) <= limit * y
  {
    var q := x / y;
    assert q * y == x;
    assert Abs(q) * y == Abs(x) by {
      if q < 0.0 { assert q * y < 0.0; } else { assert q * y >= 0.0; }
    }
    if Abs(q) <= limit {
      assert Abs(q) * y <= limit * y;
    } else {
      assert Abs(q) * y > limit * y;
    }
  }

  /** The markup that a context would apply to a ruble price. */
  predicate Approves(context: PricingContext, currency: string) {
    && currency in {"RUB", "RUR"} && currency in context.rates && context.rates[currency] == 1.0
    && context.vat != Unknown
    && context.rule.Some? && context.rule.value.approved && context.rule.value.multiplier > 0.0
  }

  function MarkedUp(price: real, context: PricingContext): real {
    if context.rule.Some? then price * context.rule.value.multiplier else price
  }

  predicate WithinLimit(proposed: real, current: real, context: PricingContext) {
    Abs(proposed - current) <= context.maxDelta * current
  }

  /** A proposal is ready exactly for an exact match, a priced item, an approved context and a
      marked-up price within the allowed distance of the current one. */
  lemma ReadyExactly(item: SupplierItem, m: MatchRecord, current: real, context: PricingContext)
    ensures var p := BuildProposal(item, m, current, context);
            p.status == ReadyForReview <==>
              && m.status == Exact && m.product.Some? && item.price > 0.0 && Approves(context, item.currency)
              && current > 0.0 && WithinLimit(MarkedUp(item.price, context), current, context)
  {
    if m.status == Exact && m.product.Some? && item.price > 0.0 && Approves(context, item.currency) {
      Priced(item, m, current, context);
      if current > 0.0 {
        Scale(MarkedUp(item.price, context) - current, current, context.maxDelta);
      }
      hide BuildProposal, MarkedUp, Abs;
    }
  }

  /** Past all guards. */
  lemma Priced(item: SupplierItem, m: MatchRecord, current: real, context: PricingContext)
    requires m.status == Exact && m.product.Some? && item.price > 0.0 && Approves(context, item.currency)
    ensures var p := BuildProposal(item, m, current, context);
            && p.quote.Some? && p.quote.value.proposed == MarkedUp(item.price, context)
            && (p.status == ReadyForReview <==>
                  current > 0.0 && Abs((MarkedUp(item.price, context) - current) / current) <= context.maxDelta)
  {
    assert item.price * context.rates[item.currency] == item.price;
  }

  /** Only an approved context ever puts a figure on a proposal; the figure is the marked-up source
      price, and it is positive. */
  lemma QuoteMeans(item: SupplierItem, m: MatchRecord, current: real, context: PricingContext)
    ensures var p := BuildProposal(item, m, current, context);
            && p.product == m.product && p.id == item.id && p.confidence == m.confidence
            && p.current == current && p.source == item.price && p.currency == item.currency
            && (p.quote.Some? <==> p.status in {ReadyForReview, BlockedDelta, BlockedCurrentPrice})
            && (p.status == ReadyForReview <==> p.warnings == [])
            && (p.quote.Some? ==>
                  && m.status == Exact && Approves(context, item.currency)
                  && p.quote.value.rate == 1.0 && p.quote.value.cost == item.price
                  && p.quote.value.calculated == p.quote.value.proposed == MarkedUp(item.price, context) > 0.0
                  && p.status == (if current <= 0.0 then BlockedCurrentPrice
                                  else if WithinLimit(MarkedUp(item.price, context), current, context)
                                  then ReadyForReview
                                  else BlockedDelta)
                  && p.quote.value.deltaAbs == p.quote.value.proposed - current
                  && (p.quote.value.deltaPct.Some? <==> current > 0.0)
                  && (current > 0.0 ==> current * (1.0 + p.quote.value.deltaPct.value) == p.quote.value.proposed))
  {
    ReadyExactly(item, m, current, context);
    hide WithinLimit;
    if Approves(context, item.currency) && item.price > 0.0 {
      assert item.price * context.rates[item.currency] == item.price;
      Positive(item.price, context.rule.value.multiplier);
      if current > 0.0 { Relative(item.price * context.rule.value.multiplier, current); }
    }
  }

  /** Which proposal is blocked for what: each status and its warning, when all that is asked before it holds. */
  lemma BlockedMeans(item: SupplierItem, m: MatchRecord, current: real, context: PricingContext)
    ensures var p := BuildProposal(item, m, current, context);
            var matched := m.status == Exact && m.product.Some?;
            var priced := matched && item.price > 0.0;
            var ruble := priced && (item.currency == "RUB" || item.currency == "RUR");
            var rated := ruble && item.currency in context.rates && context.rates[item.currency] > 0.0;
            var parity := rated && context.rates[item.currency] == 1.0;
            var taxed := parity && (context.vat == Included || context.vat == Excluded);
            var ruled := taxed && context.rule.Some? && context.rule.value.approved;
            var marked := ruled && context.rule.value.multiplier > 0.0;
            && (p.status == BlockedMatch <==> !matched)
            && (!matched ==> p.warnings == ["match_not_exact"])
            && (p.status == BlockedSourcePrice <==> matched && !priced)
            && (matched && !priced ==> p.warnings == ["nonpositive_source_price"])
            && (p.status == BlockedCurrency <==> priced && !parity)
            && (priced && !ruble ==> p.warnings == ["currency_not_approved"])
            && (ruble && !rated ==> p.warnings == ["missing_or_invalid_exchange_rate"])
            && (rated && !parity ==> p.warnings == ["currency_parity_not_approved"])
            && (p.status == BlockedVatBasis <==> parity && !taxed)
            && (parity && !taxed ==> p.warnings == ["vat_basis_unknown"])
            && (p.status == BlockedMissingMarkup <==> taxed && !ruled)
            && (taxed && !ruled ==> p.warnings == ["markup_policy_not_approved"])
            && (p.status == BlockedMarkup <==> ruled && !marked)
            && (ruled && !marked ==> p.warnings == ["invalid_markup_rule"])
            && (p.status == BlockedCurrentPrice <==> marked && current <= 0.0)
            && (marked && current <= 0.0 ==> p.warnings == ["nonpositive_current_price"])
            && (p.status == BlockedDelta ==> marked && current > 0.0 && p.warnings == ["delta_exceeds_limit"])
            && (!marked ==> p.quote.None?)
  {
    hide Abs;
  }

  lemma Positive(x: real, y: real)
    requires x > 0.0 && y > 0.0
    ensures x * y > 0.0
  {}

  lemma Relative(proposed: real, current: real)
    requires current > 0.0
    ensures current * (1.0 + (proposed - current) / current) == proposed
  {
    var q := (proposed - current) / current;
    assert q * current == proposed - current;
    assert current * (1.0 + q) == current + q * current;
  }
}
