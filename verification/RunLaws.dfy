/** What holds of every finished run: which bundles verify, which prices are ready, what the
    missing-product counters can ever do, and that no record falls through. */
module RunLaws {
  import opened Common
  import opened Ordering
  import opened Catalogue
  import opened Pricing
  import opened Runner
  import Matcher
  import MatchingLaws
  import In = RunInputs
  import State = MissingState
  import Categories = CategoryMapping
  import CategoryLaws
  import Files = Bundle

  // ------------------------------------------------------- which bundles verify

  lemma StatusesAreSafe(matches: seq<MatchRecord>, proposals: seq<PriceProposal>)
    ensures Cells(Statuses(matches)) == Statuses(matches)
    ensures Cells(ProposalStatuses(proposals)) == ProposalStatuses(proposals)
  {
    forall s: Status ensures Files.CsvValue(StatusText(s)) == StatusText(s) {
      assert StatusText(s)[0] !in {'=', '+', '-', '@'};
    }
    forall s: ProposalStatus ensures Files.CsvValue(ProposalText(s)) == ProposalText(s) {
      assert ProposalText(s)[0] !in {'=', '+', '-', '@'};
    }
    hide Files.CsvValue, StatusText, ProposalText;
  }

  predicate Unchanged(s: string) { Files.CsvValue(s) == s }

  /** No SKU is the escaped form of another one. */
  ghost predicate NoEscapedTwin(skus: seq<string>) {
    forall i, j | 0 <= i < |skus| && 0 <= j < |skus| :: Files.Formula(skus[i]) ==> skus[j] != "'" + skus[i]
  }

  lemma EscapedColumn(s: seq<string>)
    requires Distinct(s)
    ensures Distinct(Cells(s)) <==> NoEscapedTwin(s)
  {
    forall i, j | 0 <= i < |s| && 0 <= j < |s| && i != j
      ensures Cells(s)[i] == Cells(s)[j] <==>
                (Files.Formula(s[i]) && s[j] == "'" + s[i]) || (Files.Formula(s[j]) && s[i] == "'" + s[j])
    {
      assert s[i] != s[j];
      Files.CsvCollision(s[i], s[j]);
    }
    hide Files.Formula, Files.CsvValue;
    if !NoEscapedTwin(s) {
      var i, j :| 0 <= i < |s| && 0 <= j < |s| && Files.Formula(s[i]) && s[j] == "'" + s[i];
      assert |s[j]| == |s[i]| + 1;
      assert Cells(s)[i] == Cells(s)[j];
    }
  }

  lemma Columns(items: seq<In.SnapshotItem>)
    ensures Files.IdColumn(Normalized(In.Suppliers(items))) == Cells(In.ItemIds(items))
    ensures Files.SkuColumn(Normalized(In.Suppliers(items))) == Cells(In.ItemSkus(items))
    ensures |Normalized(In.Suppliers(items))| == |items|
  {
    hide Files.CsvValue;
  }

  lemma UnchangedColumn(s: seq<string>)
    ensures s == Cells(s) <==> forall i | 0 <= i < |s| :: Unchanged(s[i])
  {
    assert forall i | 0 <= i < |s| :: Cells(s)[i] == Files.CsvValue(s[i]);
    hide Files.CsvValue;
  }

  ghost predicate OneLineEach(codec: Files.RowCodec, items: seq<In.SnapshotItem>) {
    forall i | 0 <= i < |items| :: Files.OneLine(codec.encode(items[i]))
  }

  /** The counts, the status counts and the missing-action gate. */
  ghost predicate CountsAndGateHold(f: Files.Bundle, items: nat) {
    && |f.normalized| == |f.matches| == |f.proposals| == f.summary.sourceItems == items
    && |f.sourceOnly| == f.summary.sourceOnly && |f.reviewQueue| == f.summary.reviewQueue
    && |f.categories| == f.summary.categories && |f.categoryProducts| == f.summary.categoryProducts
    && |f.missing| == f.summary.missing
    && Files.Counted(f.matches) == f.summary.matches && Files.Counted(f.proposals) == f.summary.proposals
    && (f.summary.feed == Files.BlockedIncomplete ==>
          !f.summary.missingActionsAllowed && !f.summary.decision.allowed && f.summary.decision.proposed == [])
  }

  /** These always hold of a built bundle. */
  lemma AlwaysPassing(p: In.Parsers, codec: Files.RowCodec, config: Config, snapshot: In.Snapshot, table: In.Table,
                      previous: Option<State.Json>, input: State.RunInput, b: Built)
    requires IsRun(p, codec, config, snapshot, table, previous, input, b)
    ensures CountsAndGateHold(b.bundle, |snapshot.items|)
    ensures b.bundle.normalized == Normalized(In.Suppliers(snapshot.items))
    ensures b.bundle.jsonl == Files.WriteLines(codec, snapshot.items)
  {
    StatusesAreSafe(b.matching.matches, b.proposals);
    Columns(snapshot.items);
    MatchingSize(p.text, In.Suppliers(snapshot.items), b.catalog, b.matching);
    hide BuildProposal, Matcher.IsMatching, Files.Counted, Selected, Files.WriteLines, State.Validated, State.Next,
         CatalogById, Lists, Categories.RowFor, Categories.Products, Sort, Categories.CountStatus, Count,
         MissingProducts, In.Accepts;
  }

  lemma VerifiesIff(codec: Files.RowCodec, items: seq<In.SnapshotItem>, f: Files.Bundle)
    requires codec.JsonText(items) && Distinct(In.ItemIds(items)) && Distinct(In.ItemSkus(items))
    requires CountsAndGateHold(f, |items|)
    requires f.normalized == Normalized(In.Suppliers(items)) && f.jsonl == Files.WriteLines(codec, items)
    ensures Files.RowsVerify(codec, f) <==>
              && (forall i | 0 <= i < |items| :: Unchanged(items[i].item.id))
              && NoEscapedTwin(In.ItemSkus(items)) && OneLineEach(codec, items)
  {
    Columns(items);
    EscapedColumn(In.ItemSkus(items));
    UnchangedColumn(In.ItemIds(items));
    assert forall i | 0 <= i < |items| :: In.ItemIds(items)[i] == items[i].item.id;
    Files.JsonLinesRoundTrip(codec, items);
    assert OneLineEach(codec, items) <==> Files.ReadLines(codec, f.jsonl) == Some(items);
    hide NoEscapedTwin, Distinct, Cells, Files.Counted, Files.WriteLines, Files.ReadLines, Files.IdColumn,
         Files.SkuColumn, In.ItemIds, In.ItemSkus, Unchanged, In.Suppliers, Normalized, Files.OneLine, OneLineEach;
  }

  /** A built bundle verifies exactly if escaping leaves every supplier id alone and merges no two
      SKUs, and no text of an item contains a character that only the reader takes for a line end. */
  lemma BuiltBundlesVerify(p: In.Parsers, codec: Files.RowCodec, config: Config, source: Digest, snapshot: In.Snapshot,
                           table: In.Table, previous: Option<State.Json>, input: State.RunInput, b: Built)
    requires In.AcceptsSnapshot(p.text, config.adapter, source, snapshot) && codec.JsonText(snapshot.items)
    requires IsRun(p, codec, config, snapshot, table, previous, input, b)
    ensures Files.RowsVerify(codec, b.bundle) <==>
              && (forall i | 0 <= i < |snapshot.items| :: Unchanged(snapshot.items[i].item.id))
              && NoEscapedTwin(In.ItemSkus(snapshot.items))
              && OneLineEach(codec, snapshot.items)
  {
    hide IsRun, NoEscapedTwin, Distinct, Files.RowsVerify, CountsAndGateHold, OneLineEach, Unchanged,
         Files.WriteLines, Normalized;
    AlwaysPassing(p, codec, config, snapshot, table, previous, input, b);
    In.UniqueMeansDistinct(snapshot.items);
    VerifiesIff(codec, snapshot.items, b.bundle);
  }

  /** So a run with an item called "-1" goes through, and its bundle is rejected. */
  lemma MinusOneIsRejected(p: In.Parsers, codec: Files.RowCodec, config: Config, source: Digest, snapshot: In.Snapshot,
                           table: In.Table, previous: Option<State.Json>, input: State.RunInput, b: Built, i: nat)
    requires In.AcceptsSnapshot(p.text, config.adapter, source, snapshot) && codec.JsonText(snapshot.items)
    requires IsRun(p, codec, config, snapshot, table, previous, input, b)
    requires i < |snapshot.items| && snapshot.items[i].item.id == "-1"
    ensures !Files.RowsVerify(codec, b.bundle)
  {
    hide *;
    MinusOneChanges();
    BuiltBundlesVerify(p, codec, config, source, snapshot, table, previous, input, b);
    assert !Unchanged(snapshot.items[i].item.id);
  }

  lemma MinusOneChanges()
    ensures !Unchanged("-1")
  {}

  /** For an adapter whose SKUs start with a letter or a digit, the SKUs never matter. */
  lemma SafeSkusHaveNoTwins(items: seq<In.SnapshotItem>, prefix: string)
    requires prefix != "" && prefix[0] !in {' ', '\t', '\r', '\n', '=', '+', '-', '@'}
    requires forall i | 0 <= i < |items| :: In.StartsWith(items[i].item.sku, prefix)
    ensures NoEscapedTwin(In.ItemSkus(items))
  {
    forall i | 0 <= i < |items| ensures !Files.Formula(In.ItemSkus(items)[i]) {
      Files.SafePrefix(prefix, items[i].item.sku);
    }
    hide Files.Formula;
  }

  // ---------------------------------------------------------- every record counts

  /** Exact matches, the review queue and the source-only rows share the records out. */
  lemma {:induction false} EveryRecordIsRouted(matches: seq<MatchRecord>)
    ensures Count(matches, IsExact) + |Selected(matches, ForReview)| + |Selected(matches, SourceOnly)| == |matches|
  {
    if matches != [] {
      var front, last := matches[..|matches| - 1], matches[|matches| - 1];
      EveryRecordIsRouted(front);
      assert matches == front + [last];
      CategoryLaws.CountOne(front, last, IsExact);
      hide Files.CsvValue, Count;
    }
  }

  lemma {:induction false} SelectedCounts(matches: seq<MatchRecord>)
    ensures |Selected(matches, SourceOnly)| == Count(matches, CategoryLaws.IsUnmatched)
  {
    if matches != [] {
      var front, last := matches[..|matches| - 1], matches[|matches| - 1];
      SelectedCounts(front);
      assert matches == front + [last];
      CategoryLaws.CountOne(front, last, CategoryLaws.IsUnmatched);
      hide Files.CsvValue, Count;
    }
  }

  /** Two independently computed figures of the summary agree: the source-only rows and the category
      proposals; and nothing is lost between the records, the queues and the missing products. */
  lemma RunConservation(p: In.Parsers, codec: Files.RowCodec, config: Config, source: Digest, snapshot: In.Snapshot,
                        table: In.Table, previous: Option<State.Json>, input: State.RunInput, b: Built)
    requires In.AcceptsSnapshot(p.text, config.adapter, source, snapshot)
    requires IsRun(p, codec, config, snapshot, table, previous, input, b)
    ensures b.bundle.summary.categoryProducts == b.bundle.summary.sourceOnly
    ensures Count(b.matching.matches, IsExact) + b.bundle.summary.reviewQueue + b.bundle.summary.sourceOnly
            == b.bundle.summary.sourceItems
    ensures b.bundle.summary.missing + |MatchingLaws.Claimants(b.matching)| == |b.catalog|
  {
    var suppliers := In.Suppliers(snapshot.items);
    ValidInputs(p, config, source, snapshot, table);
    MatchingSize(p.text, suppliers, b.catalog, b.matching);
    LookupsSucceed(p.text, suppliers, b.catalog, b.matching);
    hide In.AcceptsSnapshot, In.Accepts, In.Items, Matcher.IsMatching, Matcher.UniqueProducts, Matcher.UniqueIds,
         Matcher.UniqueSkus, BuildProposal, State.Next, State.Validated, State.Decides, CatalogById, Lists,
         Categories.RowFor, Categories.Products, Sort, Categories.CountStatus, Count, Selected, MissingProducts,
         Categories.IsMapping, Files.WriteLines, Files.Counted;
    MappingResolves(suppliers, b.matching.matches, CatalogById(b.catalog));
    CategoryLaws.Conservation(SourceRows(suppliers), b.matching.matches, Targets(CatalogById(b.catalog)), b.order,
        b.mapping);
    MappingCounts(SourceRows(suppliers), b.matching.matches, Targets(CatalogById(b.catalog)), b.order, b.mapping);
    EveryRecordIsRouted(b.matching.matches);
    SelectedCounts(b.matching.matches);
    MatchingLaws.CatalogueIsConserved(p.text, suppliers, b.catalog, b.matching);
  }

  lemma MappingCounts(rows: seq<Categories.SourceRow>, matches: seq<MatchRecord>, catalog: map<int, Categories.Target>,
                      order: seq<string>, r: Categories.Mapping)
    requires Categories.IsMapping(rows, matches, catalog, order, r)
    ensures r.summary.sourceOnly == |r.products|
  {
    hide Categories.RowFor, Lists, Sort, Count;
  }

  // ------------------------------------------------------- which prices are ready

  /** The catalogue item that an exact record stands for. */
  function ExactItem(t: Text, catalog: seq<CatalogItem>, s: SupplierItem): CatalogItem
    requires |Matcher.Having(t, catalog, Matcher.SkuKey(s.sku))| == 1
  {
    Matcher.Having(t, catalog, Matcher.SkuKey(s.sku))[0]
  }

  lemma CurrentPrice(t: Text, suppliers: seq<SupplierItem>, catalog: seq<CatalogItem>, r: MatchResult, i: nat)
    requires Matcher.UniqueProducts(catalog) && Matcher.IsMatching(t, suppliers, catalog, r) && i < |suppliers|
    requires r.matches[i].status == Exact
    ensures |Matcher.Having(t, catalog, Matcher.SkuKey(suppliers[i].sku))| == 1
    ensures var c := ExactItem(t, catalog, suppliers[i]);
            r.matches[i].product == Some(c.productId) && Current(CatalogById(catalog), r.matches[i]) == c.price
  {
    MatchingLaws.ExactMeans(t, suppliers, catalog, r, i);
    MatchingLaws.HavingHas(t, catalog, Matcher.SkuKey(suppliers[i].sku), 0);
    CatalogLookup(catalog);
    hide Matcher.Having, Matcher.IsMatching, CatalogById, Matcher.UniqueProducts;
    var c := ExactItem(t, catalog, suppliers[i]);
    var k :| 0 <= k < |catalog| && catalog[k] == c;
  }

  /** An item without identity doubts, the one catalogue item with its SKU not yet claimed, no
      populated identity field in disagreement, and a marked-up source price no further from that
      item's price than allowed. */
  ghost predicate FitForReview(t: Text, suppliers: seq<SupplierItem>, catalog: seq<CatalogItem>, i: nat,
                               context: PricingContext)
    requires i < |suppliers|
  {
    var s := suppliers[i];
    && s.identityWarnings == [] && |Matcher.Having(t, catalog, Matcher.SkuKey(s.sku))| == 1
    && s.price > 0.0 && Approves(context, s.currency)
    && var c := ExactItem(t, catalog, s);
       && !Matcher.Claimed(t, suppliers, catalog, i, c.productId)
       && !Matcher.EanDiffers(t, s, c) && !Matcher.ModelDiffers(t, s, c) && !Matcher.ManufacturerDiffers(t, s, c)
       && c.price > 0.0 && WithinLimit(MarkedUp(s.price, context), c.price, context)
  }

  lemma ReadyRecord(t: Text, suppliers: seq<SupplierItem>, catalog: seq<CatalogItem>, r: MatchResult, i: nat,
                    context: PricingContext)
    requires Matcher.UniqueProducts(catalog) && Matcher.IsMatching(t, suppliers, catalog, r) && i < |suppliers|
    ensures var p := BuildProposal(suppliers[i], r.matches[i], Current(CatalogById(catalog), r.matches[i]), context);
            p.status == ReadyForReview <==> FitForReview(t, suppliers, catalog, i, context)
  {
    var m := r.matches[i];
    MatchingLaws.ExactMeans(t, suppliers, catalog, r, i);
    if m.status == Exact { CurrentPrice(t, suppliers, catalog, r, i); }
    hide Matcher.Having, Matcher.Claimed, Matcher.EanDiffers, Matcher.ModelDiffers, Matcher.ManufacturerDiffers,
         BuildProposal, Approves, CatalogById, Matcher.UniqueProducts, Matcher.IsMatching, Current, WithinLimit,
         MarkedUp;
    ReadyExactly(suppliers[i], m, Current(CatalogById(catalog), m), context);
  }

  /** Exactly the items fit for review get a ready proposal, at the marked-up source price. */
  lemma ReadyMeans(p: In.Parsers, codec: Files.RowCodec, config: Config, source: Digest, snapshot: In.Snapshot,
                   table: In.Table, previous: Option<State.Json>, input: State.RunInput, b: Built, i: nat)
    requires In.AcceptsSnapshot(p.text, config.adapter, source, snapshot)
    requires IsRun(p, codec, config, snapshot, table, previous, input, b) && i < |snapshot.items|
    ensures b.proposals[i].status == ReadyForReview <==>
              FitForReview(p.text, In.Suppliers(snapshot.items), b.catalog, i, PricingFor(config, snapshot.currencies))
    ensures b.proposals[i].status == ReadyForReview ==>
              && b.proposals[i].quote.Some?
              && b.proposals[i].quote.value.proposed
                 == MarkedUp(snapshot.items[i].item.price, PricingFor(config, snapshot.currencies))
  {
    var suppliers, m, context := In.Suppliers(snapshot.items), b.matching.matches[i],
        PricingFor(config, snapshot.currencies);
    ValidInputs(p, config, source, snapshot, table);
    assert suppliers[i] == snapshot.items[i].item;
    assert b.proposals[i] == BuildProposal(suppliers[i], m, Current(CatalogById(b.catalog), m), context);
    assert Matcher.IsMatching(p.text, suppliers, b.catalog, b.matching);
    hide In.AcceptsSnapshot, In.Accepts, In.Items, IsRun, BuildProposal, FitForReview, PricingFor, CatalogById,
         In.Suppliers, Matcher.UniqueProducts, Matcher.UniqueIds, Matcher.UniqueSkus, Matcher.IsMatching, Current,
         Approves, WithinLimit, MarkedUp;
    ReadyRecord(p.text, suppliers, b.catalog, b.matching, i, context);
    QuoteMeans(suppliers[i], m, Current(CatalogById(b.catalog), m), context);
  }

  /** No product has two ready proposals. */
  lemma ReadyProductsAreDistinct(p: In.Parsers, codec: Files.RowCodec, config: Config, snapshot: In.Snapshot,
                                 table: In.Table,
                                 previous: Option<State.Json>, input: State.RunInput, b: Built, i: nat, j: nat)
    requires IsRun(p, codec, config, snapshot, table, previous, input, b)
    requires i < |snapshot.items| && j < |snapshot.items|
    requires b.proposals[i].status == b.proposals[j].status == ReadyForReview
    requires b.proposals[i].product == b.proposals[j].product
    ensures i == j
  {
    var suppliers, context := In.Suppliers(snapshot.items), PricingFor(config, snapshot.currencies);
    var byId, matches := CatalogById(b.catalog), b.matching.matches;
    assert b.proposals[i] == BuildProposal(suppliers[i], matches[i], Current(byId, matches[i]), context);
    assert b.proposals[j] == BuildProposal(suppliers[j], matches[j], Current(byId, matches[j]), context);
    assert Matcher.IsMatching(p.text, suppliers, b.catalog, b.matching);
    hide IsRun, BuildProposal, Matcher.IsMatching, CatalogById, Current, PricingFor;
    ReadyExactly(suppliers[i], matches[i], Current(byId, matches[i]), context);
    ReadyExactly(suppliers[j], matches[j], Current(byId, matches[j]), context);
    QuoteMeans(suppliers[i], matches[i], Current(byId, matches[i]), context);
    QuoteMeans(suppliers[j], matches[j], Current(byId, matches[j]), context);
    hide Approves, WithinLimit, MarkedUp;
    MatchingLaws.ProductsAreDistinct(p.text, suppliers, b.catalog, b.matching, i, j);
  }

  // ------------------------------------------------ what the counters can ever do

  /** Reports of a run call the feed complete exactly if nothing is missing. */
  predicate Wired(run: State.RunInput) { run.complete == (run.missing == map[]) }

  /** Whatever the previous state and the policy, no run proposes an action. */
  lemma NoRunProposesAnAction(p: In.Parsers, codec: Files.RowCodec, config: Config, snapshot: In.Snapshot,
                              table: In.Table,
                              previous: Option<State.Json>, input: State.RunInput, b: Built)
    requires IsRun(p, codec, config, snapshot, table, previous, input, b)
    ensures b.decision.proposed == []
    ensures input.complete ==> forall product :: State.Count(b.state, product) == 0
    ensures !input.complete ==> !b.decision.allowed
                                && b.state.products == State.Validated(previous, config.adapter.supplier).value.products
  {
    assert State.Decides(b.decision, b.state, input, config.policy) && Wired(input);
    var before := State.Validated(previous, config.adapter.supplier).value;
    assert b.state == State.Next(before, input);
    hide IsRun, State.Validated;
    WiredDecision(b.decision, b.state, input, config.policy);
    if input.complete {
      forall product ensures State.Count(b.state, product) == 0 { State.CountNext(before, input, product); }
    }
  }

  lemma WiredDecision(d: State.Decision, s: State.State, run: State.RunInput, policy: State.Policy)
    requires State.Decides(d, s, run, policy) && Wired(run)
    ensures d.proposed == []
  {
    if d.allowed {
      var order :| Lists(order, run.missing.Keys, Below)
                   && d.proposed == State.Proposals(order, s, run, policy.action.value, policy.threshold.value);
      if order != [] {
        ListedOnly(order, run.missing.Keys, Below, 0);
        assert false;
      }
    }
  }

  /** A run is one link of such a chain: it reads back the state that the run before it wrote. */
  lemma RunIsOneLink(p: In.Parsers, codec: Files.RowCodec, config: Config, snapshot: In.Snapshot, table: In.Table,
                     before: State.State, input: State.RunInput, b: Built)
    requires State.Valid(before, config.adapter.supplier)
    requires IsRun(p, codec, config, snapshot, table, Some(State.ToJson(before)), input, b)
    ensures Wired(input) && b.state == State.Next(before, input) && State.Valid(b.state, config.adapter.supplier)
  {
    State.ValidRoundTrips(before, config.adapter.supplier);
    State.NextKeepsValid(before, config.adapter.supplier, input);
    hide State.Validated, State.Next, State.Valid, BuildProposal, Matcher.IsMatching, Categories.IsMapping, BundleOf,
         State.Decides;
  }

  /** One finished run: its inputs and its outcome. */
  datatype Link = Link(p: In.Parsers, codec: Files.RowCodec, config: Config, snapshot: In.Snapshot, table: In.Table,
                       input: State.RunInput, built: Built)

  ghost predicate IsLink(l: Link, supplier: string, previous: Option<State.Json>) {
    l.config.adapter.supplier == supplier
    && IsRun(l.p, l.codec, l.config, l.snapshot, l.table, previous, l.input, l.built)
  }

  /** The state document that run `i` is given: none at first, then what the run before it wrote. */
  function Given(links: seq<Link>, i: nat): Option<State.Json>
    requires i <= |links|
  {
    if i == 0 then None else Some(State.ToJson(links[i - 1].built.state))
  }

  /** Finished runs of one supplier, each fed the state of the one before. */
  ghost predicate Chain(links: seq<Link>, supplier: string) {
    forall i | 0 <= i < |links| :: IsLink(links[i], supplier, Given(links, i))
  }

  function Inputs(links: seq<Link>): seq<State.RunInput> {
    seq(|links|, i requires 0 <= i < |links| => links[i].input)
  }

  lemma LinkMeans(l: Link, supplier: string, previous: Option<State.Json>)
    requires IsLink(l, supplier, previous)
    ensures Wired(l.input) && State.Validated(previous, supplier).Ok? && l.built.decision.proposed == []
    ensures l.built.state == State.Next(State.Validated(previous, supplier).value, l.input)
  {
    assert Wired(l.input);
    hide State.Validated, State.Next;
    NoRunProposesAnAction(l.p, l.codec, l.config, l.snapshot, l.table, previous, l.input, l.built);
  }

  /** The state after each run of a chain is the fold of all reports so far. */
  lemma {:induction false} ChainFolds(links: seq<Link>, supplier: string, n: nat)
    requires Chain(links, supplier) && n <= |links|
    ensures State.Valid(State.Fold(State.EmptyState(supplier), Inputs(links[..n])), supplier)
    ensures State.Validated(Given(links, n), supplier) == Ok(State.Fold(State.EmptyState(supplier), Inputs(links[..n])))
  {
    hide IsLink, State.Next, State.Validated, State.Valid, Inputs;
    if n == 0 {
      FirstState(supplier);
      assert links[..0] == [] && Inputs(links[..0]) == [] by { NoInputs(); }
    } else {
      ChainFolds(links, supplier, n - 1);
      LinkMeans(links[n - 1], supplier, Given(links, n - 1));
      InputsNext(links, n);
      var before := State.Fold(State.EmptyState(supplier), Inputs(links[..n - 1]));
      FoldNext(State.EmptyState(supplier), Inputs(links[..n - 1]), links[n - 1].input);
      hide State.Fold, State.EmptyState;
      State.NextKeepsValid(before, supplier, links[n - 1].input);
      State.ValidRoundTrips(State.Next(before, links[n - 1].input), supplier);
    }
  }

  lemma NoInputs()
    ensures Inputs([]) == []
  {}

  lemma InputsNext(links: seq<Link>, n: nat)
    requires 0 < n <= |links|
    ensures Inputs(links[..n]) == Inputs(links[..n - 1]) + [links[n - 1].input]
  {}

  lemma FoldNext(s: State.State, runs: seq<State.RunInput>, run: State.RunInput)
    ensures State.Fold(s, runs + [run]) == State.Next(State.Fold(s, runs), run)
  {
    assert (runs + [run])[..|runs|] == runs;
    hide State.Next;
  }

  lemma FirstState(supplier: string)
    ensures State.Valid(State.EmptyState(supplier), supplier)
    ensures State.Validated(None, supplier) == Ok(State.EmptyState(supplier))
  {}

  lemma {:induction false} WiredFoldIsEmpty(supplier: string, runs: seq<State.RunInput>)
    requires forall i | 0 <= i < |runs| :: Wired(runs[i])
    ensures State.Fold(State.EmptyState(supplier), runs).products == map[]
  {
    if runs != [] {
      WiredFoldIsEmpty(supplier, runs[..|runs| - 1]);
      var before, last := State.Fold(State.EmptyState(supplier), runs[..|runs| - 1]), runs[|runs| - 1];
      assert Wired(last);
      if last.complete { assert State.Records(before.products, last) == map[]; }
    }
  }

  /** In every chain of runs that starts without a state, no product ever gets a counter, and no run
      proposes an action. */
  lemma CountersStayEmpty(links: seq<Link>, supplier: string, i: nat)
    requires Chain(links, supplier) && i < |links|
    ensures links[i].built.state.products == map[] && links[i].built.decision.proposed == []
  {
    hide IsLink, State.Next, State.Validated, State.Valid, Inputs, State.Fold, State.EmptyState, Given;
    ChainFolds(links, supplier, i + 1);
    LinkMeans(links[i], supplier, Given(links, i));
    StateRead(links[i].built.state, links, supplier, i);
    InputsAreWired(links, supplier, i + 1);
    WiredFoldIsEmpty(supplier, Inputs(links[..i + 1]));
  }

  lemma InputsAreWired(links: seq<Link>, supplier: string, n: nat)
    requires Chain(links, supplier) && n <= |links|
    ensures var inputs := Inputs(links[..n]); forall k | 0 <= k < |inputs| :: Wired(inputs[k])
  {
    hide IsLink, Wired;
    forall k | 0 <= k < n ensures Wired(links[k].input) {
      LinkMeans(links[k], supplier, Given(links, k));
    }
  }

  /** The state that a run wrote is the one that is read back. */
  lemma StateRead(s: State.State, links: seq<Link>, supplier: string, i: nat)
    requires Chain(links, supplier) && i < |links| && s == links[i].built.state
    ensures State.Validated(Given(links, i + 1), supplier) == Ok(s)
  {
    hide IsLink, State.Next, State.Validated, State.Valid, Inputs, State.Fold, State.EmptyState;
    ChainFolds(links, supplier, i);
    LinkMeans(links[i], supplier, Given(links, i));
    var before := State.Fold(State.EmptyState(supplier), Inputs(links[..i]));
    State.NextKeepsValid(before, supplier, links[i].input);
    State.ValidRoundTrips(s, supplier);
  }
}
