/** What a finished run reports and writes, cell by cell and figure by figure. */
module RunMeaning {
  import opened Common
  import opened Ordering
  import opened Catalogue
  import opened Pricing
  import opened Runner
  import Matcher
  import RawAttributes
  import CategoryMeaning
  import CategoryLaws
  import RunLaws
  import In = RunInputs
  import State = MissingState
  import Categories = CategoryMapping
  import Files = Bundle

  // ---------------------------------------------------------------- rows of one status

  /** The records of these positions, in order: the cell of a record stands after those of the selected
      records before it. */
  ghost predicate Lists(cells: seq<string>, matches: seq<MatchRecord>, wanted: set<Status>) {
    && |cells| == |set k: nat | k < |matches| && matches[k].status in wanted|
    && forall k: nat | k < |matches| && matches[k].status in wanted ::
         var at := |set j: nat | j < k && matches[j].status in wanted|;
         at < |cells| && cells[at] == Files.CsvValue(matches[k].id)
  }

  ghost function WantedAt(matches: seq<MatchRecord>, wanted: set<Status>): set<nat> {
    set k: nat | k < |matches| && matches[k].status in wanted
  }

  lemma {:induction false} SelectedSize(matches: seq<MatchRecord>, p: MatchRecord -> bool, wanted: set<Status>)
    requires forall m :: p(m) <==> m.status in wanted
    ensures |Selected(matches, p)| == |WantedAt(matches, wanted)|
  {
    if matches == [] {
      assert WantedAt(matches, wanted) == {};
    } else {
      var front, last := matches[..|matches| - 1], matches[|matches| - 1];
      SelectedSize(front, p, wanted);
      var was := WantedAt(front, wanted);
      assert WantedAt(matches, wanted) == if last.status in wanted then was + {|front|} else was;
    }
  }

  lemma {:induction false} SelectedAt(matches: seq<MatchRecord>, p: MatchRecord -> bool, wanted: set<Status>, k: nat)
    requires forall m :: p(m) <==> m.status in wanted
    requires k < |matches| && matches[k].status in wanted
    ensures var at := |WantedAt(matches[..k], wanted)|;
            at < |Selected(matches, p)| && Selected(matches, p)[at] == Files.CsvValue(matches[k].id)
  {
    var front := matches[..|matches| - 1];
    hide Files.CsvValue;
    if k < |front| {
      SelectedAt(front, p, wanted, k);
      assert front[..k] == matches[..k];
    } else {
      SelectedSize(front, p, wanted);
    }
  }

  lemma SelectedMeans(matches: seq<MatchRecord>, p: MatchRecord -> bool, wanted: set<Status>)
    requires forall m :: p(m) <==> m.status in wanted
    ensures Lists(Selected(matches, p), matches, wanted)
  {
    SelectedSize(matches, p, wanted);
    assert WantedAt(matches, wanted) == set k: nat | k < |matches| && matches[k].status in wanted;
    hide Selected, Files.CsvValue;
    forall k: nat | k < |matches| && matches[k].status in wanted
      ensures var at := |set j: nat | j < k && matches[j].status in wanted|;
              at < |Selected(matches, p)| && Selected(matches, p)[at] == Files.CsvValue(matches[k].id)
    {
      SelectedAt(matches, p, wanted, k);
      assert WantedAt(matches[..k], wanted) == set j: nat | j < k && matches[j].status in wanted;
    }
  }

  // --------------------------------------------------------------------- status texts

  ghost function TextAt(s: seq<string>, x: string): set<nat> { set k: nat | k < |s| && s[k] == x }

  lemma TextNext(front: seq<string>, last: string, x: string)
    ensures |TextAt(front + [last], x)| == |TextAt(front, x)| + if last == x then 1 else 0
    ensures x !in front ==> |TextAt(front, x)| == 0
  {
    var was := TextAt(front, x);
    assert TextAt(front + [last], x) == if last == x then was + {|front|} else was;
    if x !in front { assert was == {}; }
  }

  lemma {:induction false} CountedMeans(s: seq<string>, x: string)
    ensures x in Files.Counted(s) <==> x in s
    ensures x in Files.Counted(s) ==> Files.Counted(s)[x] == |TextAt(s, x)|
  {
    hide TextAt;
    if s != [] {
      var front, last := s[..|s| - 1], s[|s| - 1];
      CountedMeans(front, x);
      assert s == front + [last];
      TextNext(front, last, x);
    }
  }

  /** The text of each match status, as the artifacts have it. */
  predicate Shows(text: string, status: Status) {
    match status
    case Exact => text == "exact"
    case HighConfidence => text == "high_confidence"
    case Conflict => text == "conflict"
    case Ambiguous => text == "ambiguous"
    case Unmatched => text == "unmatched"
  }

  predicate ShowsProposal(text: string, status: ProposalStatus) {
    match status
    case ReadyForReview => text == "ready_for_review"
    case BlockedMatch => text == "blocked_match"
    case BlockedSourcePrice => text == "blocked_source_price"
    case BlockedCurrency => text == "blocked_currency"
    case BlockedVatBasis => text == "blocked_vat_basis"
    case BlockedMissingMarkup => text == "blocked_missing_markup"
    case BlockedMarkup => text == "blocked_markup"
    case BlockedCurrentPrice => text == "blocked_current_price"
    case BlockedDelta => text == "blocked_delta"
  }

  /** A counter of texts: how often each occurs, and nothing that does not. */
  ghost predicate CountsTexts(counts: map<string, nat>, texts: seq<string>) {
    forall x ::
      (x in counts <==> x in texts) && (x in counts ==> counts[x] == |set k: nat | k < |texts| && texts[k] == x|)
  }

  // ------------------------------------------------------------------------ the bundle

  /** Every artifact and every figure of the summary. */
  ghost predicate BundleSays(f: Files.Bundle, items: seq<In.SnapshotItem>, b: Built) {
    && |f.normalized| == |items|
    && (forall i | 0 <= i < |items| ::
          && f.normalized[i].id == Files.CsvValue(items[i].item.id)
          && f.normalized[i].sku == Files.CsvValue(items[i].item.sku))
    && |f.matches| == |b.matching.matches| == |items|
    && (forall i | 0 <= i < |items| :: Shows(f.matches[i], b.matching.matches[i].status))
    && |f.proposals| == |b.proposals| == |items|
    && (forall i | 0 <= i < |items| :: ShowsProposal(f.proposals[i], b.proposals[i].status))
    && Lists(f.sourceOnly, b.matching.matches, {Unmatched})
    && Lists(f.reviewQueue, b.matching.matches, {Conflict, HighConfidence, Ambiguous})
    && |f.categories| == |b.mapping.mapping|
    && (forall i | 0 <= i < |f.categories| :: f.categories[i] == Files.CsvValue(b.mapping.mapping[i].category))
    && |f.categoryProducts| == |b.mapping.products|
    && (forall i | 0 <= i < |f.categoryProducts| ::
          f.categoryProducts[i] == Files.CsvValue(b.mapping.products[i].id))
    && f.missing == b.matching.missing
    && f.summary.sourceItems == |items|
    && f.summary.sourceOnly == |f.sourceOnly| && f.summary.reviewQueue == |f.reviewQueue|
    && f.summary.categories == |f.categories| && f.summary.categoryProducts == |f.categoryProducts|
    && f.summary.missing == |f.missing|
    && CountsTexts(f.summary.matches, f.matches) && CountsTexts(f.summary.proposals, f.proposals)
    && f.summary.feed == (if f.missing == [] then Files.Complete else Files.BlockedIncomplete)
    && !f.summary.missingActionsAllowed && f.summary.decision == b.decision
  }

  lemma TextsShow(matches: seq<MatchRecord>, proposals: seq<PriceProposal>)
    ensures |Cells(Statuses(matches))| == |matches| && |Cells(ProposalStatuses(proposals))| == |proposals|
    ensures forall i | 0 <= i < |matches| :: Shows(Cells(Statuses(matches))[i], matches[i].status)
    ensures forall i | 0 <= i < |proposals| ::
              ShowsProposal(Cells(ProposalStatuses(proposals))[i], proposals[i].status)
    ensures CountsTexts(Files.Counted(Statuses(matches)), Cells(Statuses(matches)))
    ensures CountsTexts(Files.Counted(ProposalStatuses(proposals)), Cells(ProposalStatuses(proposals)))
  {
    RunLaws.StatusesAreSafe(matches, proposals);
    hide Cells;
    TextsCounted(Statuses(matches));
    TextsCounted(ProposalStatuses(proposals));
    hide Files.Counted, CountsTexts;
  }

  lemma TextsCounted(texts: seq<string>)
    ensures CountsTexts(Files.Counted(texts), texts)
  {
    hide Files.Counted;
    forall x
      ensures x in Files.Counted(texts) <==> x in texts
      ensures x in Files.Counted(texts) ==> Files.Counted(texts)[x] == |set k: nat | k < |texts| && texts[k] == x|
    {
      CountedMeans(texts, x);
      assert TextAt(texts, x) == set k: nat | k < |texts| && texts[k] == x;
    }
  }

  lemma RowsSay(items: seq<In.SnapshotItem>, matching: MatchResult, mapping: Categories.Mapping)
    ensures forall i | 0 <= i < |items| ::
              && Normalized(In.Suppliers(items))[i].id == Files.CsvValue(items[i].item.id)
              && Normalized(In.Suppliers(items))[i].sku == Files.CsvValue(items[i].item.sku)
    ensures |Normalized(In.Suppliers(items))| == |items|
    ensures Lists(Selected(matching.matches, SourceOnly), matching.matches, {Unmatched})
    ensures Lists(Selected(matching.matches, ForReview), matching.matches, {Conflict, HighConfidence, Ambiguous})
    ensures |MappingCells(mapping.mapping)| == |mapping.mapping|
    ensures forall i | 0 <= i < |mapping.mapping| ::
              MappingCells(mapping.mapping)[i] == Files.CsvValue(mapping.mapping[i].category)
    ensures |ProductCells(mapping.products)| == |mapping.products|
    ensures forall i | 0 <= i < |mapping.products| ::
              ProductCells(mapping.products)[i] == Files.CsvValue(mapping.products[i].id)
  {
    hide Files.CsvValue, Selected, Lists;
    SelectedMeans(matching.matches, SourceOnly, {Unmatched});
    SelectedMeans(matching.matches, ForReview, {Conflict, HighConfidence, Ambiguous});
  }

  /** What a run puts into its bundle. */
  lemma BundleMeans(p: In.Parsers, codec: Files.RowCodec, config: Config, snapshot: In.Snapshot, table: In.Table,
                    previous: Option<State.Json>, input: State.RunInput, b: Built)
    requires IsRun(p, codec, config, snapshot, table, previous, input, b)
    ensures BundleSays(b.bundle, snapshot.items, b)
  {
    hide BuildProposal, Matcher.IsMatching, Files.Counted, Selected, Files.WriteLines, State.Validated, State.Next,
         State.Decides, CatalogById, MissingProducts, In.Accepts, In.Items, Files.CsvValue, Lists, CountsTexts, Cells,
         Statuses, ProposalStatuses, Normalized, MappingCells, ProductCells, Shows, ShowsProposal;
    TextsShow(b.matching.matches, b.proposals);
    RowsSay(snapshot.items, b.matching, b.mapping);
    RunSizes(p, codec, config, snapshot, table, previous, input, b);
    hide Categories.IsMapping, Reports, In.Suppliers;
  }

  /** A feed is complete exactly if no product is missing; sizes agree. */
  lemma RunSizes(p: In.Parsers, codec: Files.RowCodec, config: Config, snapshot: In.Snapshot, table: In.Table,
                 previous: Option<State.Json>, input: State.RunInput, b: Built)
    requires IsRun(p, codec, config, snapshot, table, previous, input, b)
    ensures |b.matching.matches| == |b.proposals| == |snapshot.items|
    ensures input.complete <==> b.matching.missing == []
    ensures b.mapping.summary.categories == |b.mapping.mapping|
    ensures b.mapping.summary.sourceOnly == |b.mapping.products|
    ensures b.bundle == BundleOf(codec, snapshot.items, b.matching, b.proposals, b.mapping, input.complete, b.decision)
  {
    hide BuildProposal, Files.WriteLines, State.Validated, State.Next, State.Decides, CatalogById, In.Accepts, In.Items,
         BundleOf, Categories.RowFor, Categories.Products, Sort, Categories.CountStatus, Count;
    MatchingSize(p.text, In.Suppliers(snapshot.items), b.catalog, b.matching);
    NothingMissing(b.matching.missing, CatalogById(b.catalog));
    hide Matcher.IsMatching;
  }

  lemma NothingMissing(missing: seq<int>, byId: map<int, CatalogItem>)
    requires forall i | 0 <= i < |missing| :: missing[i] in byId
    ensures MissingProducts(missing, byId) == map[] <==> missing == []
  {
    if missing != [] {
      var last := missing[|missing| - 1];
      assert Str(last) in MissingProducts(missing, byId);
    }
  }

  // ---------------------------------------------------------------- between the stages

  /** The price that a proposal compares with: that of the matched product, or zero. */
  ghost predicate IsCurrent(catalog: seq<CatalogItem>, m: MatchRecord, current: real) {
    if m.product.None? then current == 0.0
    else exists k | 0 <= k < |catalog| :: catalog[k].productId == m.product.value && catalog[k].price == current
  }

  /** The configured pricing, or else parity of the ruble if the feed declares it, and no rule. */
  ghost predicate IsPricing(config: Config, currencies: map<string, real>, context: PricingContext) {
    match config.pricing
    case Some(given) => context == given
    case None =>
      && context.rule == None && context.vat == Unknown && context.maxDelta == 0.5
      && context.rates == if "RUR" in currencies && currencies["RUR"] == 1.0 then map["RUR" := 1.0] else map[]
  }

  lemma CurrentMeans(catalog: seq<CatalogItem>, m: MatchRecord)
    requires Matcher.UniqueProducts(catalog)
    requires m.product.Some? ==> m.product.value in CatalogById(catalog)
    ensures IsCurrent(catalog, m, Current(CatalogById(catalog), m))
  {
    CatalogLookup(catalog);
    hide CatalogById, Matcher.UniqueProducts;
  }

  /** Each proposal is built from its item and record, the current price of the matched product, and the
      pricing of the run. */
  lemma ProposalMeans(p: In.Parsers, codec: Files.RowCodec, config: Config, source: Digest, snapshot: In.Snapshot,
                      table: In.Table, previous: Option<State.Json>, input: State.RunInput, b: Built, i: nat)
      returns (current: real, context: PricingContext)
    requires In.AcceptsSnapshot(p.text, config.adapter, source, snapshot)
    requires IsRun(p, codec, config, snapshot, table, previous, input, b) && i < |snapshot.items|
    ensures IsCurrent(b.catalog, b.matching.matches[i], current) && IsPricing(config, snapshot.currencies, context)
    ensures b.proposals[i] == BuildProposal(snapshot.items[i].item, b.matching.matches[i], current, context)
  {
    current := Current(CatalogById(b.catalog), b.matching.matches[i]);
    context := PricingFor(config, snapshot.currencies);
    BuiltFrom(p, codec, config, snapshot, table, previous, input, b, i);
    PricingMeans(config, snapshot.currencies);
    hide IsRun, In.AcceptsSnapshot, In.Accepts, In.Items, In.Suppliers, BuildProposal, Matcher.IsMatching,
         Matcher.UniqueIds, Matcher.UniqueSkus, Matcher.UniqueProducts, Current, CatalogById, IsCurrent, PricingFor,
         IsPricing, In.GoodCatalogue;
    ValidInputs(p, config, source, snapshot, table);
    LookupsSucceed(p.text, In.Suppliers(snapshot.items), b.catalog, b.matching);
    CurrentMeans(b.catalog, b.matching.matches[i]);
  }

  lemma PricingMeans(config: Config, currencies: map<string, real>)
    ensures IsPricing(config, currencies, PricingFor(config, currencies))
  {}

  lemma BuiltFrom(p: In.Parsers, codec: Files.RowCodec, config: Config, snapshot: In.Snapshot, table: In.Table,
                  previous: Option<State.Json>, input: State.RunInput, b: Built, i: nat)
    requires IsRun(p, codec, config, snapshot, table, previous, input, b) && i < |snapshot.items|
    ensures |In.Suppliers(snapshot.items)| == |snapshot.items| && In.Accepts(p, table)
    ensures b.catalog == In.Items(p, table.headers, table.rows, config.adapter.prefix)
    ensures Matcher.IsMatching(p.text, In.Suppliers(snapshot.items), b.catalog, b.matching)
    ensures b.proposals[i] == BuildProposal(snapshot.items[i].item, b.matching.matches[i],
                                            Current(CatalogById(b.catalog), b.matching.matches[i]),
                                            PricingFor(config, snapshot.currencies))
  {
    hide BuildProposal, Matcher.Claimed, Categories.IsMapping, Reports, State.Validated, State.Next, State.Decides,
         BundleOf, CatalogById, Current, In.Accepts, In.Items, Matcher.Select;
    assert In.Suppliers(snapshot.items)[i] == snapshot.items[i].item;
  }

  /** The category mapping gets the id and category of every item, and the categories of every product. */
  lemma MappingInputs(p: In.Parsers, config: Config, source: Digest, snapshot: In.Snapshot, table: In.Table,
                      catalog: seq<CatalogItem>)
    requires In.AcceptsSnapshot(p.text, config.adapter, source, snapshot) && In.Accepts(p, table)
    requires catalog == In.Items(p, table.headers, table.rows, config.adapter.prefix)
    ensures var rows, targets := SourceRows(In.Suppliers(snapshot.items)), Targets(CatalogById(catalog));
            && |rows| == |snapshot.items|
            && (forall i | 0 <= i < |rows| ::
                  rows[i].id == snapshot.items[i].item.id && rows[i].category == snapshot.items[i].item.category)
            && (forall id :: id in targets <==> exists k | 0 <= k < |catalog| :: catalog[k].productId == id)
            && forall k | 0 <= k < |catalog| :: targets[catalog[k].productId] == catalog[k].category
  {
    ValidInputs(p, config, source, snapshot, table);
    CatalogLookup(catalog);
    hide In.AcceptsSnapshot, In.Accepts, In.Items, CatalogById, Matcher.UniqueProducts, Matcher.UniqueIds,
         Matcher.UniqueSkus, In.GoodCatalogue;
  }

  lemma {:induction false} MissingText(missing: seq<int>, byId: map<int, CatalogItem>, text: string)
    requires forall i | 0 <= i < |missing| :: missing[i] in byId && missing[i] > 0
    ensures text in MissingProducts(missing, byId) <==> exists i | 0 <= i < |missing| :: Str(missing[i]) == text
    ensures text in MissingProducts(missing, byId) ==>
              && RawAttributes.NumberOf(text) in missing && Str(RawAttributes.NumberOf(text)) == text
              && MissingProducts(missing, byId)[text] == byId[RawAttributes.NumberOf(text)].sku
  {
    if missing != [] {
      var front, last := missing[..|missing| - 1], missing[|missing| - 1];
      MissingText(front, byId, text);
      assert missing == front + [last];
      RawAttributes.DecimalMeans(last);
    }
  }

  /** What is reported of a missing product: its number in decimal, with its SKU; and nothing else. */
  lemma ReportMeans(p: In.Parsers, codec: Files.RowCodec, config: Config, source: Digest, snapshot: In.Snapshot,
                    table: In.Table, previous: Option<State.Json>, input: State.RunInput, b: Built)
    requires In.AcceptsSnapshot(p.text, config.adapter, source, snapshot)
    requires IsRun(p, codec, config, snapshot, table, previous, input, b)
    ensures forall id | id in b.matching.missing ::
              exists text, k | text in input.missing && 0 <= k < |b.catalog| ::
                && RawAttributes.NumberOf(text) == id && b.catalog[k].productId == id
                && input.missing[text] == b.catalog[k].sku
    ensures forall text | text in input.missing ::
              && RawAttributes.NumberOf(text) in b.matching.missing && (|text| > 1 ==> text[0] != '0')
              && forall i | 0 <= i < |text| :: '0' <= text[i] <= '9'
    ensures input.complete <==> b.matching.missing == []
  {
    hide *;
    var byId := CatalogById(b.catalog);
    RunSizes(p, codec, config, snapshot, table, previous, input, b);
    CatalogueUsed(p, codec, config, source, snapshot, table, previous, input, b);
    ReportTexts(b.matching.missing, byId);
    forall id | id in b.matching.missing
      ensures exists text, k | text in input.missing && 0 <= k < |b.catalog| ::
                && RawAttributes.NumberOf(text) == id && b.catalog[k].productId == id
                && input.missing[text] == b.catalog[k].sku
    {
      var k :| 0 <= k < |b.catalog| && byId[id] == b.catalog[k] && b.catalog[k].productId == id;
      assert Str(id) in input.missing && RawAttributes.NumberOf(Str(id)) == id;
      assert input.missing[Str(id)] == b.catalog[k].sku;
    }
  }

  lemma CatalogueUsed(p: In.Parsers, codec: Files.RowCodec, config: Config, source: Digest, snapshot: In.Snapshot,
                      table: In.Table, previous: Option<State.Json>, input: State.RunInput, b: Built)
    requires In.AcceptsSnapshot(p.text, config.adapter, source, snapshot)
    requires IsRun(p, codec, config, snapshot, table, previous, input, b)
    ensures var byId := CatalogById(b.catalog);
            && (forall i | 0 <= i < |b.matching.missing| :: b.matching.missing[i] in byId && b.matching.missing[i] > 0)
            && input.missing == MissingProducts(b.matching.missing, byId)
            && forall id | id in byId ::
                 exists k | 0 <= k < |b.catalog| :: byId[id] == b.catalog[k] && b.catalog[k].productId == id
  {
    assert Reports(input, b.matching, CatalogById(b.catalog));
    assert b.catalog == In.Items(p, table.headers, table.rows, config.adapter.prefix) && In.Accepts(p, table);
    hide IsRun, In.AcceptsSnapshot, In.Accepts, In.Items, In.Suppliers, Matcher.UniqueIds, Matcher.UniqueSkus,
         Matcher.UniqueProducts, CatalogById, MissingProducts;
    ValidInputs(p, config, source, snapshot, table);
    CatalogLookup(b.catalog);
    forall i | 0 <= i < |b.matching.missing| ensures b.matching.missing[i] > 0 {
      var k :| 0 <= k < |b.catalog| && b.catalog[k].productId == b.matching.missing[i];
      assert In.GoodEntry(b.catalog[k], config.adapter.prefix);
    }
  }

  lemma ReportTexts(missing: seq<int>, byId: map<int, CatalogItem>)
    requires forall i | 0 <= i < |missing| :: missing[i] in byId && missing[i] > 0
    ensures forall id | id in missing ::
              Str(id) in MissingProducts(missing, byId) && RawAttributes.NumberOf(Str(id)) == id
              && MissingProducts(missing, byId)[Str(id)] == byId[id].sku
    ensures forall text | text in MissingProducts(missing, byId) ::
              && RawAttributes.NumberOf(text) in missing && (|text| > 1 ==> text[0] != '0')
              && forall i | 0 <= i < |text| :: '0' <= text[i] <= '9'
  {
    hide MissingProducts, RawAttributes.NumberOf, RawAttributes.Decimal;
    forall id | id in missing
      ensures Str(id) in MissingProducts(missing, byId) && RawAttributes.NumberOf(Str(id)) == id
      ensures MissingProducts(missing, byId)[Str(id)] == byId[id].sku
    {
      var i :| 0 <= i < |missing| && missing[i] == id;
      RawAttributes.DecimalMeans(id);
      MissingText(missing, byId, Str(id));
    }
    forall text | text in MissingProducts(missing, byId)
      ensures RawAttributes.NumberOf(text) in missing && (|text| > 1 ==> text[0] != '0')
      ensures forall i | 0 <= i < |text| :: '0' <= text[i] <= '9'
    {
      MissingText(missing, byId, text);
      RawAttributes.DecimalMeans(RawAttributes.NumberOf(text));
    }
  }

  // ------------------------------------------------------------------------ the verdict

  /** The row-level checks pass exactly if the JSON lines can be read, every count is the one announced,
      no id and no SKU repeats, the two item files name the same ids, the status counts are those of the
      rows, and nothing is allowed or proposed on an incomplete feed. */
  lemma VerdictMeans(codec: Files.RowCodec, f: Files.Bundle)
    ensures Files.RowsVerify(codec, f) <==>
              var read := Files.ReadLines(codec, f.jsonl);
              && read.Some?
              && f.summary.sourceItems == |f.normalized| && f.summary.sourceItems == |read.value|
              && f.summary.sourceItems == |f.matches| && f.summary.sourceItems == |f.proposals|
              && f.summary.sourceOnly == |f.sourceOnly| && f.summary.reviewQueue == |f.reviewQueue|
              && f.summary.categories == |f.categories| && f.summary.categoryProducts == |f.categoryProducts|
              && f.summary.missing == |f.missing|
              && (forall i, j | 0 <= i < j < |f.normalized| ::
                    f.normalized[i].id != f.normalized[j].id && f.normalized[i].sku != f.normalized[j].sku)
              && (forall i | 0 <= i < |f.normalized| :: f.normalized[i].id == read.value[i].item.id)
              && CountsTexts(f.summary.matches, f.matches) && CountsTexts(f.summary.proposals, f.proposals)
              && (f.summary.feed == Files.BlockedIncomplete ==>
                    && !f.summary.missingActionsAllowed && !f.summary.decision.allowed
                    && f.summary.decision.proposed == [])
  {
    hide Files.ReadLines;
    CountsDecide(f.summary.matches, f.matches);
    CountsDecide(f.summary.proposals, f.proposals);
    ColumnsDiffer(f.normalized);
    var read := Files.ReadLines(codec, f.jsonl);
    if read.Some? && |read.value| == |f.normalized| { SameIds(read.value, f.normalized); }
    hide Files.Counted, CountsTexts, Distinct, Files.IdColumn, Files.SkuColumn, In.ItemIds;
  }

  lemma CountsDecide(counts: map<string, nat>, texts: seq<string>)
    ensures CountsTexts(counts, texts) <==> Files.Counted(texts) == counts
  {
    TextsCounted(texts);
    var own := Files.Counted(texts);
    hide Files.Counted;
    if CountsTexts(counts, texts) {
      assert forall x :: x in counts <==> x in own;
      assert forall x | x in counts :: counts[x] == own[x];
    }
  }

  lemma ColumnsDiffer(rows: seq<Files.Identity>)
    ensures Distinct(Files.IdColumn(rows)) && Distinct(Files.SkuColumn(rows)) <==>
              forall i, j | 0 <= i < j < |rows| :: rows[i].id != rows[j].id && rows[i].sku != rows[j].sku
  {
    var ids, skus := Files.IdColumn(rows), Files.SkuColumn(rows);
    assert forall i | 0 <= i < |rows| :: ids[i] == rows[i].id && skus[i] == rows[i].sku;
    if Distinct(ids) && Distinct(skus) {
      forall i, j | 0 <= i < j < |rows| ensures rows[i].id != rows[j].id && rows[i].sku != rows[j].sku {
        assert ids[i] != ids[j] && skus[i] != skus[j];
      }
    }
  }

  lemma SameIds(items: seq<In.SnapshotItem>, rows: seq<Files.Identity>)
    requires |items| == |rows|
    ensures In.ItemIds(items) == Files.IdColumn(rows) <==> forall i | 0 <= i < |rows| :: rows[i].id == items[i].item.id
  {
    var ids, column := In.ItemIds(items), Files.IdColumn(rows);
    assert forall i | 0 <= i < |rows| :: ids[i] == items[i].item.id && column[i] == rows[i].id;
  }
}
