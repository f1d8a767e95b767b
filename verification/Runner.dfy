/** `_build_pilot`: the stages of a run, wired together. The two validations at its head are what
    makes every later stage and every later lookup succeed. */
module Runner {
  import opened Common
  import opened Ordering
  import opened Catalogue
  import opened Pricing
  import Matcher
  import MatchingLaws
  import RawAttributes
  import In = RunInputs
  import State = MissingState
  import Categories = CategoryMapping
  import Files = Bundle

  datatype Config = Config(adapter: In.Adapter, policy: State.Policy, pricing: Option<PricingContext>)

  datatype Error =
    | BadSnapshot(snapshot: In.SnapshotError)
    | BadCatalogue(catalogue: In.LoadError)
    | BadState(state: State.Error)

  datatype Built = Built(
    bundle: Files.Bundle,
    catalog: seq<CatalogItem>,
    matching: MatchResult,
    proposals: seq<PriceProposal>,
    mapping: Categories.Mapping,
    order: seq<string>,
    state: State.State,
    decision: State.Decision)

  // ------------------------------------------------------------- specification

  function CatalogById(items: seq<CatalogItem>): map<int, CatalogItem> {
    if items == [] then map[]
    else CatalogById(items[..|items| - 1])[items[|items| - 1].productId := items[|items| - 1]]
  }

  function SupplierById(suppliers: seq<SupplierItem>): map<string, SupplierItem> {
    if suppliers == [] then map[]
    else SupplierById(suppliers[..|suppliers| - 1])[suppliers[|suppliers| - 1].id := suppliers[|suppliers| - 1]]
  }

  /** Python's `str` on an integer. */
  function Str(n: int): string { if n < 0 then "-" + RawAttributes.Decimal(-n) else RawAttributes.Decimal(n) }

  /** The missing products by their text, with their SKUs. */
  function MissingProducts(missing: seq<int>, byId: map<int, CatalogItem>): map<string, string>
    requires forall i | 0 <= i < |missing| :: missing[i] in byId
  {
    if missing == [] then map[]
    else
      var last := missing[|missing| - 1];
      MissingProducts(missing[..|missing| - 1], byId)[Str(last) := byId[last].sku]
  }

  /** Without a pricing context, only declared parity of the ruble is taken over, and no rule. */
  function PricingFor(config: Config, currencies: map<string, real>): PricingContext {
    if config.pricing.Some? then config.pricing.value
    else
      PricingContext(if "RUR" in currencies && currencies["RUR"] == 1.0 then map["RUR" := 1.0] else map[],
                     None, 0.5, Unknown)
  }

  function Current(byId: map<int, CatalogItem>, m: MatchRecord): real {
    if m.product.Some? && m.product.value in byId then byId[m.product.value].price else 0.0
  }

  function SourceRows(suppliers: seq<SupplierItem>): seq<Categories.SourceRow> {
    seq(|suppliers|, i requires 0 <= i < |suppliers| => Categories.SourceRow(suppliers[i].id, suppliers[i].category))
  }

  function Targets(byId: map<int, CatalogItem>): map<int, (string, string)> { map id | id in byId :: byId[id].category }

  function StatusText(status: Status): string {
    match status
    case Exact => "exact"
    case HighConfidence => "high_confidence"
    case Conflict => "conflict"
    case Ambiguous => "ambiguous"
    case Unmatched => "unmatched"
  }

  function ProposalText(status: ProposalStatus): string {
    match status
    case ReadyForReview => "ready_for_review"
    case BlockedMatch => "blocked_match"
    case BlockedSourcePrice => "blocked_source_price"
    case BlockedCurrency => "blocked_currency"
    case BlockedVatBasis => "blocked_vat_basis"
    case BlockedMissingMarkup => "blocked_missing_markup"
    case BlockedMarkup => "blocked_markup"
    case BlockedCurrentPrice => "blocked_current_price"
    case BlockedDelta => "blocked_delta"
  }

  predicate SourceOnly(m: MatchRecord) { m.status == Unmatched }

  predicate ForReview(m: MatchRecord) { m.status in {Conflict, HighConfidence, Ambiguous} }

  predicate IsExact(m: MatchRecord) { m.status == Exact }

  /** The ids of the selected records, as cells. */
  function Selected(matches: seq<MatchRecord>, wanted: MatchRecord -> bool): seq<string> {
    if matches == [] then []
    else
      var last := matches[|matches| - 1];
      Selected(matches[..|matches| - 1], wanted) + (if wanted(last) then [Files.CsvValue(last.id)] else [])
  }

  function Statuses(matches: seq<MatchRecord>): seq<string> {
    seq(|matches|, i requires 0 <= i < |matches| => StatusText(matches[i].status))
  }

  function ProposalStatuses(proposals: seq<PriceProposal>): seq<string> {
    seq(|proposals|, i requires 0 <= i < |proposals| => ProposalText(proposals[i].status))
  }

  function Cells(s: seq<string>): seq<string> { seq(|s|, i requires 0 <= i < |s| => Files.CsvValue(s[i])) }

  function Normalized(suppliers: seq<SupplierItem>): seq<Files.Identity> {
    seq(|suppliers|, i requires 0 <= i < |suppliers| =>
      Files.Identity(Files.CsvValue(suppliers[i].id), Files.CsvValue(suppliers[i].sku)))
  }

  function MappingCells(mapping: seq<Categories.MappingRow>): seq<string> {
    seq(|mapping|, i requires 0 <= i < |mapping| => Files.CsvValue(mapping[i].category))
  }

  function ProductCells(products: seq<Categories.ProductRow>): seq<string> {
    seq(|products|, i requires 0 <= i < |products| => Files.CsvValue(products[i].id))
  }

  /** What the run writes. */
  function BundleOf(codec: Files.RowCodec, items: seq<In.SnapshotItem>, matching: MatchResult,
                    proposals: seq<PriceProposal>,
                    mapping: Categories.Mapping, complete: bool, decision: State.Decision): Files.Bundle
  {
    var sourceOnly, review := Selected(matching.matches, SourceOnly), Selected(matching.matches, ForReview);
    Files.Bundle(
      Normalized(In.Suppliers(items)), Files.WriteLines(codec, items),
      Cells(Statuses(matching.matches)), Cells(ProposalStatuses(proposals)), sourceOnly, review,
      MappingCells(mapping.mapping), ProductCells(mapping.products), matching.missing,
      Files.RunSummary(
        |items|, |sourceOnly|, |review|, mapping.summary.categories, mapping.summary.sourceOnly, |matching.missing|,
        Files.Counted(Statuses(matching.matches)), Files.Counted(ProposalStatuses(proposals)),
        if complete then Files.Complete else Files.BlockedIncomplete, false, decision))
  }

  /** What the run reports to the missing-product counters: the feed is complete if nothing is missing. */
  ghost predicate Reports(input: State.RunInput, matching: MatchResult, byId: map<int, CatalogItem>) {
    && (forall i | 0 <= i < |matching.missing| :: matching.missing[i] in byId)
    && input.missing == MissingProducts(matching.missing, byId)
    && input.complete == (input.missing == map[])
    && input.runId != ""
  }

  ghost predicate IsRun(p: In.Parsers, codec: Files.RowCodec, config: Config, snapshot: In.Snapshot, table: In.Table,
                        previous: Option<State.Json>, input: State.RunInput, b: Built)
  {
    var suppliers, byId := In.Suppliers(snapshot.items), CatalogById(b.catalog);
    && In.Accepts(p, table) && b.catalog == In.Items(p, table.headers, table.rows, config.adapter.prefix)
    && Matcher.IsMatching(p.text, suppliers, b.catalog, b.matching)
    && |b.proposals| == |suppliers|
    && (forall i | 0 <= i < |suppliers| ::
          b.proposals[i] == BuildProposal(suppliers[i], b.matching.matches[i], Current(byId, b.matching.matches[i]),
                                          PricingFor(config, snapshot.currencies)))
    && Categories.IsMapping(SourceRows(suppliers), b.matching.matches, Targets(byId), b.order, b.mapping)
    && Reports(input, b.matching, byId)
    && State.Validated(previous, config.adapter.supplier).Ok?
    && b.state == State.Next(State.Validated(previous, config.adapter.supplier).value, input)
    && State.Decides(b.decision, b.state, input, config.policy)
    && b.bundle == BundleOf(codec, snapshot.items, b.matching, b.proposals, b.mapping, input.complete, b.decision)
  }

  // ------------------------------------------------------------ lookups succeed

  lemma {:induction false} CatalogLookup(items: seq<CatalogItem>)
    requires Matcher.UniqueProducts(items)
    ensures forall i | 0 <= i < |items| ::
              items[i].productId in CatalogById(items) && CatalogById(items)[items[i].productId] == items[i]
    ensures forall id | id in CatalogById(items) ::
              exists i | 0 <= i < |items| :: CatalogById(items)[id] == items[i] && items[i].productId == id
  {
    if items != [] {
      CatalogLookup(items[..|items| - 1]);
    }
  }

  lemma {:induction false} SupplierLookup(suppliers: seq<SupplierItem>)
    requires Matcher.UniqueIds(suppliers)
    ensures forall i | 0 <= i < |suppliers| ::
              suppliers[i].id in SupplierById(suppliers) && SupplierById(suppliers)[suppliers[i].id] == suppliers[i]
  {
    if suppliers != [] {
      SupplierLookup(suppliers[..|suppliers| - 1]);
    }
  }

  /** Records carry the ids of their suppliers and products of the catalogue; missing products are
      products of the catalogue. */
  lemma LookupsSucceed(t: Text, suppliers: seq<SupplierItem>, items: seq<CatalogItem>, r: MatchResult)
    requires Matcher.UniqueIds(suppliers) && Matcher.UniqueProducts(items) && Matcher.IsMatching(t, suppliers, items, r)
    ensures forall i | 0 <= i < |suppliers| ::
              && r.matches[i].id == suppliers[i].id
              && r.matches[i].id in SupplierById(suppliers) && SupplierById(suppliers)[r.matches[i].id] == suppliers[i]
              && (r.matches[i].product.Some? ==> r.matches[i].product.value in CatalogById(items))
    ensures forall i | 0 <= i < |r.missing| :: r.missing[i] in CatalogById(items)
  {
    CatalogLookup(items);
    SupplierLookup(suppliers);
    hide CatalogById, SupplierById, Matcher.UniqueIds, Matcher.UniqueProducts;
    forall i | 0 <= i < |suppliers|
      ensures r.matches[i].id == suppliers[i].id
      ensures r.matches[i].product.Some? ==> r.matches[i].product.value in CatalogById(items)
    {
      RecordId(t, suppliers, items, r, i);
      if r.matches[i].product.Some? {
        ProductIsListed(t, suppliers, items, r, i);
      }
    }
    forall i | 0 <= i < |r.missing| ensures r.missing[i] in CatalogById(items) {
      ListedOnly(r.missing, Matcher.Unclaimed(t, suppliers, items), AtMost, i);
      MissingIsListed(t, suppliers, items, r.missing[i]);
    }
  }

  lemma RecordId(t: Text, suppliers: seq<SupplierItem>, items: seq<CatalogItem>, r: MatchResult, i: nat)
    requires Matcher.IsMatching(t, suppliers, items, r) && i < |suppliers|
    ensures r.matches[i].id == suppliers[i].id
  {
    hide Matcher.Select, Matcher.Claimed, Lists, Matcher.Unclaimed;
  }

  lemma ProductIsListed(t: Text, suppliers: seq<SupplierItem>, items: seq<CatalogItem>, r: MatchResult, i: nat)
    requires Matcher.IsMatching(t, suppliers, items, r) && i < |suppliers| && r.matches[i].product.Some?
    ensures exists k | 0 <= k < |items| :: items[k].productId == r.matches[i].product.value
  {
    MatchingLaws.ProductMeansFirst(t, suppliers, items, r, i, r.matches[i].product.value);
    MatchingLaws.PointsIntoCatalogue(t, suppliers, items, i, r.matches[i].product.value);
    hide Matcher.IsMatching, Matcher.Points, Matcher.Claimed;
  }

  lemma MissingIsListed(t: Text, suppliers: seq<SupplierItem>, items: seq<CatalogItem>, product: int)
    requires product in Matcher.Unclaimed(t, suppliers, items)
    ensures exists k | 0 <= k < |items| :: items[k].productId == product
  {
    hide Matcher.Claimed;
  }

  /** The counters get a text per missing product, never an empty one, and different texts for
      different products. */
  lemma {:induction false} MissingProductsMean(missing: seq<int>, items: seq<CatalogItem>, prefix: string,
                                               byId: map<int, CatalogItem>)
    requires In.GoodCatalogue(items, prefix) && byId == CatalogById(items)
    requires forall i | 0 <= i < |missing| :: missing[i] in byId
    ensures forall p: nat :: Str(p) in MissingProducts(missing, byId) <==> p in missing
    ensures forall p | p in MissingProducts(missing, byId) :: p != "" && MissingProducts(missing, byId)[p] != ""
    ensures MissingProducts(missing, byId) == map[] <==> missing == []
  {
    if missing != [] {
      var front, last := missing[..|missing| - 1], missing[|missing| - 1];
      MissingProductsMean(front, items, prefix, byId);
      CatalogLookup(items);
      var i :| 0 <= i < |items| && byId[last] == items[i] && items[i].productId == last;
      assert In.GoodEntry(items[i], prefix);
      hide CatalogById, In.GoodCatalogue, Str;
      SameText(last);
      assert missing == front + [last];
      assert Str(last) in MissingProducts(missing, byId);
    }
  }

  lemma SameText(n: int)
    requires n > 0
    ensures Str(n) != "" && forall p: nat :: Str(p) == Str(n) <==> p == n
  {
    RawAttributes.DecimalDigits(n);
    forall p: nat ensures Str(p) == Str(n) <==> p == n {
      if Str(p) == Str(n) { RawAttributes.DecimalInjective(p, n); }
    }
    hide RawAttributes.Decimal;
  }

  // ------------------------------------------------------------------ algorithm

  method IndexCatalogue(items: seq<CatalogItem>) returns (byId: map<int, CatalogItem>)
    ensures byId == CatalogById(items)
  {
    byId := map[];
    for i := 0 to |items|
      invariant byId == CatalogById(items[..i])
    {
      assert items[..i + 1][..i] == items[..i];
      byId := byId[items[i].productId := items[i]];
    }
    assert items[..|items|] == items;
  }

  method IndexSuppliers(suppliers: seq<SupplierItem>) returns (byId: map<string, SupplierItem>)
    ensures byId == SupplierById(suppliers)
  {
    byId := map[];
    for i := 0 to |suppliers|
      invariant byId == SupplierById(suppliers[..i])
    {
      assert suppliers[..i + 1][..i] == suppliers[..i];
      byId := byId[suppliers[i].id := suppliers[i]];
    }
    assert suppliers[..|suppliers|] == suppliers;
  }

  method CollectMissing(missing: seq<int>, byId: map<int, CatalogItem>) returns (products: map<string, string>)
    requires forall i | 0 <= i < |missing| :: missing[i] in byId
    ensures products == MissingProducts(missing, byId)
  {
    products := map[];
    for i := 0 to |missing|
      invariant products == MissingProducts(missing[..i], byId)
    {
      assert missing[..i + 1][..i] == missing[..i];
      products := products[Str(missing[i]) := byId[missing[i]].sku];
    }
    assert missing[..|missing|] == missing;
  }

  /** The pricing loop: the lookups are by the ids in the records. */
  method ProposeAll(ghost suppliers: seq<SupplierItem>, supplierById: map<string, SupplierItem>,
                    catalogById: map<int, CatalogItem>,
                    matches: seq<MatchRecord>, pricing: PricingContext) returns (proposals: seq<PriceProposal>)
    requires |matches| == |suppliers|
    requires forall i | 0 <= i < |matches| ::
               && matches[i].id in supplierById && supplierById[matches[i].id] == suppliers[i]
               && (matches[i].product.Some? ==> matches[i].product.value in catalogById)
    ensures |proposals| == |suppliers|
    ensures forall i | 0 <= i < |suppliers| ::
              proposals[i] == BuildProposal(suppliers[i], matches[i], Current(catalogById, matches[i]), pricing)
  {
    proposals := [];
    hide BuildProposal;
    for i := 0 to |matches|
      invariant |proposals| == i
      invariant forall j | 0 <= j < i ::
          proposals[j] == BuildProposal(suppliers[j], matches[j], Current(catalogById, matches[j]), pricing)
    {
      var m := matches[i];
      var supplier := supplierById[m.id];
      var current := 0.0;
      if m.product.Some? {
        current := catalogById[m.product.value].price;
      }
      proposals := proposals + [BuildProposal(supplier, m, current, pricing)];
    }
  }

  /** The loops that pick the source-only rows and the review queue. */
  method Route(matches: seq<MatchRecord>) returns (sourceOnly: seq<string>, review: seq<string>)
    ensures sourceOnly == Selected(matches, SourceOnly) && review == Selected(matches, ForReview)
  {
    sourceOnly, review := [], [];
    hide Files.CsvValue;
    for i := 0 to |matches|
      invariant sourceOnly == Selected(matches[..i], SourceOnly) && review == Selected(matches[..i], ForReview)
    {
      assert matches[..i + 1][..i] == matches[..i];
      var m := matches[i];
      if m.status == Unmatched { sourceOnly := sourceOnly + [Files.CsvValue(m.id)]; }
      if m.status in {Conflict, HighConfidence, Ambiguous} { review := review + [Files.CsvValue(m.id)]; }
    }
    assert matches[..|matches|] == matches;
  }

  /** The writing stage. */
  method WriteBundle(codec: Files.RowCodec, items: seq<In.SnapshotItem>, matching: MatchResult,
                     proposals: seq<PriceProposal>,
                     mapping: Categories.Mapping, complete: bool, decision: State.Decision)
                         returns (bundle: Files.Bundle)
    ensures bundle == BundleOf(codec, items, matching, proposals, mapping, complete, decision)
  {
    var sourceOnly, review := Route(matching.matches);
    var matchCounts := Files.CountStatuses(Statuses(matching.matches));
    var proposalCounts := Files.CountStatuses(ProposalStatuses(proposals));
    hide Selected, Statuses, ProposalStatuses, Cells, Normalized, MappingCells, ProductCells, Files.Counted,
         Files.WriteLines;
    bundle := Files.Bundle(
      Normalized(In.Suppliers(items)), Files.WriteLines(codec, items),
      Cells(Statuses(matching.matches)), Cells(ProposalStatuses(proposals)), sourceOnly, review,
      MappingCells(mapping.mapping), ProductCells(mapping.products), matching.missing,
      Files.RunSummary(
        |items|, |sourceOnly|, |review|, mapping.summary.categories, mapping.summary.sourceOnly, |matching.missing|,
        matchCounts, proposalCounts, if complete then Files.Complete else Files.BlockedIncomplete, false, decision));
  }

  /** Every lookup of the category mapping succeeds as well. */
  lemma MappingResolves(suppliers: seq<SupplierItem>, matches: seq<MatchRecord>, byId: map<int, CatalogItem>)
    requires |matches| == |suppliers| && forall i | 0 <= i < |matches| ::
               matches[i].id == suppliers[i].id && (matches[i].product.Some? ==> matches[i].product.value in byId)
    ensures Categories.AllResolvable(Categories.ById(SourceRows(suppliers)), matches, Targets(byId))
  {
    RowIdsKnown(SourceRows(suppliers));
    forall i | 0 <= i < |matches|
      ensures Categories.Resolvable(Categories.ById(SourceRows(suppliers)), matches[i], Targets(byId))
    {
      assert SourceRows(suppliers)[i].id == matches[i].id;
    }
  }

  lemma {:induction false} RowIdsKnown(rows: seq<Categories.SourceRow>)
    ensures forall i | 0 <= i < |rows| :: rows[i].id in Categories.ById(rows)
  {
    if rows != [] { RowIdsKnown(rows[..|rows| - 1]); }
  }

  function RunId(supplier: string, source: Digest, catalogue: Digest): string {
    supplier + "-" + Take12(source) + "-catalog-" + Take12(catalogue)
  }

  function Take12(s: string): string { if |s| <= 12 then s else s[..12] }

  /** A threshold, if there is one, is positive. */
  predicate GoodPolicy(policy: State.Policy) { policy.threshold.Some? ==> policy.threshold.value >= 1 }

  /** `_build_pilot`, from the parsed inputs on. The only failures left after the two validations are
      those of the previous state and of the policy. */
  method BuildPilot(p: In.Parsers, codec: Files.RowCodec, config: Config, source: Digest, catalogue: Digest,
                    snapshot: In.Snapshot, table: In.Table, previous: Option<State.Json>)
      returns (r: Result<Built, Error>, ghost input: State.RunInput)
    ensures r.Ok? <==>
              && In.AcceptsSnapshot(p.text, config.adapter, source, snapshot) && In.Accepts(p, table)
              && config.adapter.supplier != "" && GoodPolicy(config.policy)
              && State.Validated(previous, config.adapter.supplier).Ok?
    ensures r.Ok? ==> IsRun(p, codec, config, snapshot, table, previous, input, r.value)
    ensures r.Ok? ==> input.runId == config.adapter.supplier + "-" + (if |source| <= 12 then source else source[..12])
                                     + "-catalog-" + (if |catalogue| <= 12 then catalogue else catalogue[..12])
  {
    hide In.AcceptsSnapshot, In.Accepts, In.Items, Matcher.IsMatching, Categories.IsMapping, Categories.AllResolvable,
         BuildProposal, BundleOf, State.Decides, State.Validated, State.Next, CatalogById, SupplierById,
         MissingProducts, RunId, Current, In.Suppliers, SourceRows, Targets, Matcher.UniqueIds, Matcher.UniqueSkus,
         Matcher.UniqueProducts, Lists;
    input := State.RunInput("", true, map[]);
    var suppliers := In.Suppliers(snapshot.items);
    var bad := In.ValidateAdapterSnapshot(p.text, config.adapter, source, snapshot);
    if bad.Some? { return Err(BadSnapshot(bad.value)), input; }
    var loaded := In.LoadCatalog(p, table, config.adapter.prefix);
    if loaded.Err? { return Err(BadCatalogue(loaded.error)), input; }
    var catalog := loaded.value;
    ValidInputs(p, config, source, snapshot, table);
    var catalogById := IndexCatalogue(catalog);
    var supplierById := IndexSuppliers(suppliers);
    var matched := Matcher.MatchSupplierItems(p.text, suppliers, catalog);
    var matching := matched.value;
    LookupsSucceed(p.text, suppliers, catalog, matching);
    MatchingSize(p.text, suppliers, catalog, matching);
    var missing := CollectMissing(matching.missing, catalogById);
    MissingProductsMean(matching.missing, catalog, config.adapter.prefix, catalogById);
    var complete := missing == map[];
    var run := State.RunInput(RunId(config.adapter.supplier, source, catalogue), complete, missing);
    input := run;
    RunIdGiven(config.adapter.supplier, source, catalogue);
    var document := State.Load(previous);
    var updated := State.UpdateMissingState(document, config.adapter.supplier, run, config.policy);
    if updated.Err? { return Err(BadState(updated.error)), input; }
    var state := updated.value.0.Dump();
    var decision := updated.value.1;
    var proposals := ProposeAll(suppliers, supplierById, catalogById, matching.matches,
        PricingFor(config, snapshot.currencies));
    MappingResolves(suppliers, matching.matches, catalogById);
    var mapped, order := Categories.BuildCategoryMapping(SourceRows(suppliers), matching.matches, Targets(catalogById));
    var bundle := WriteBundle(codec, snapshot.items, matching, proposals, mapped.value, complete, decision);
    r := Ok(Built(bundle, catalog, matching, proposals, mapped.value, order, state, decision));
  }

  lemma RunIdGiven(supplier: string, source: Digest, catalogue: Digest)
    ensures RunId(supplier, source, catalogue) != ""
    ensures RunId(supplier, source, catalogue)
            == supplier + "-" + (if |source| <= 12 then source else source[..12])
               + "-catalog-" + (if |catalogue| <= 12 then catalogue else catalogue[..12])
  {}

  lemma MatchingSize(t: Text, suppliers: seq<SupplierItem>, items: seq<CatalogItem>, r: MatchResult)
    requires Matcher.IsMatching(t, suppliers, items, r)
    ensures |r.matches| == |suppliers|
  {}

  /** The two validations establish what the matcher demands. */
  lemma ValidInputs(p: In.Parsers, config: Config, source: Digest, snapshot: In.Snapshot, table: In.Table)
    requires In.AcceptsSnapshot(p.text, config.adapter, source, snapshot) && In.Accepts(p, table)
    ensures var suppliers := In.Suppliers(snapshot.items);
            var items := In.Items(p, table.headers, table.rows, config.adapter.prefix);
            && Matcher.UniqueIds(suppliers) && Matcher.UniqueSkus(suppliers) && Matcher.UniqueProducts(items)
            && In.GoodCatalogue(items, config.adapter.prefix)
  {
    In.LoadedCatalogueIsGood(p, table.headers, table.rows, config.adapter.prefix);
    hide In.Items, In.Suppliers, Matcher.UniqueIds, Matcher.UniqueSkus, Matcher.UniqueProducts;
  }
}
