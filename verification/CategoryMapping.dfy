/** `build_category_mapping`: what exact matches teach about a supplier category, row by row,
    and what follows for the products that only the supplier has. */
module CategoryMapping {
  import opened Common
  import opened Ordering
  import opened Catalogue

  type Target = (string, string)

  /** A normalised item, its category path already rendered as a key. */
  datatype SourceRow = SourceRow(id: string, category: string)

  datatype MappingStatus = StrongCandidate | ReviewCandidate | AmbiguousTarget | Unmapped

  /** A `Counter`: targets in the order of their first occurrence, with their counts. */
  type Counter = seq<(Target, nat)>

  datatype MappingRow = MappingRow(
    category: string,
    total: nat,
    sourceOnly: nat,
    support: nat,
    suggested: Target,
    dominant: nat,
    alternatives: Counter,
    status: MappingStatus)

  datatype ProposalStatus = ReviewOnly | BlockedAmbiguous | BlockedUnmapped

  datatype ProductRow = ProductRow(id: string, category: string, suggested: Target, mapping: MappingStatus,
                                   status: ProposalStatus)

  datatype Summary = Summary(
    categories: nat, sourceOnly: nat, strong: nat, review: nat, ambiguous: nat, unmapped: nat, withCandidate: nat)

  datatype Error = UnknownSupplierItem | UnknownProduct

  // ------------------------------------------------------------- specification

  function Categories(rows: seq<SourceRow>): seq<string> {
    if rows == [] then [] else Categories(rows[..|rows| - 1]) + [rows[|rows| - 1].category]
  }

  /** The dictionary by item id: a later row replaces an earlier one. */
  function ById(rows: seq<SourceRow>): map<string, SourceRow> {
    if rows == [] then map[]
    else ById(rows[..|rows| - 1])[rows[|rows| - 1].id := rows[|rows| - 1]]
  }

  predicate Teaches(m: MatchRecord) { m.status == Exact && m.product.Some? }

  /** Every lookup of the two loops succeeds. */
  predicate Resolvable(byId: map<string, SourceRow>, m: MatchRecord, catalog: map<int, Target>) {
    m.id in byId && (Teaches(m) ==> m.product.value in catalog)
  }

  predicate AllResolvable(byId: map<string, SourceRow>, matches: seq<MatchRecord>, catalog: map<int, Target>) {
    forall i | 0 <= i < |matches| :: Resolvable(byId, matches[i], catalog)
  }

  function CategoryOf(byId: map<string, SourceRow>, m: MatchRecord): string {
    if m.id in byId then byId[m.id].category else ""
  }

  function TargetOf(catalog: map<int, Target>, m: MatchRecord): Target {
    if m.product.Some? && m.product.value in catalog then catalog[m.product.value] else ("", "")
  }

  /** The categories of the unmatched items, in order. */
  function SourceOnly(byId: map<string, SourceRow>, matches: seq<MatchRecord>): seq<string> {
    if matches == [] then []
    else
      var last := matches[|matches| - 1];
      SourceOnly(byId, matches[..|matches| - 1]) + (if last.status == Unmatched then [CategoryOf(byId, last)] else [])
  }

  /** The evidence: supplier category and catalogue target of every exact match with a product. */
  function Evidence(byId: map<string, SourceRow>, matches: seq<MatchRecord>, catalog: map<int, Target>)
      : seq<(string, Target)>
  {
    if matches == [] then []
    else
      var last := matches[|matches| - 1];
      Evidence(byId, matches[..|matches| - 1], catalog)
      + (if Teaches(last) then [(CategoryOf(byId, last), TargetOf(catalog, last))] else [])
  }

  function Learners(evidence: seq<(string, Target)>): seq<string> {
    if evidence == [] then [] else Learners(evidence[..|evidence| - 1]) + [evidence[|evidence| - 1].0]
  }

  function Add(counter: Counter, t: Target): Counter {
    if counter == [] then [(t, 1)]
    else if counter[0].0 == t then [(t, counter[0].1 + 1)] + counter[1..]
    else [counter[0]] + Add(counter[1..], t)
  }

  /** The counter of one category over all evidence. */
  function CounterOf(evidence: seq<(string, Target)>, category: string): Counter {
    if evidence == [] then []
    else
      var front, last := CounterOf(evidence[..|evidence| - 1], category), evidence[|evidence| - 1];
      if last.0 == category then Add(front, last.1) else front
  }

  function Total(counter: Counter): nat {
    if counter == [] then 0 else counter[0].1 + Total(counter[1..])
  }

  predicate AtLeastAsCommon(a: (Target, nat), b: (Target, nat)) { a.1 >= b.1 }

  /** `most_common()`: by descending count, ties in order of first occurrence. */
  function Ranked(counter: Counter): Counter { Sort(counter, AtLeastAsCommon) }

  /** The thresholds, with the dominance ratio multiplied out. */
  function StatusOf(support: nat, top: nat): MappingStatus {
    if support >= 3 && top == support then StrongCandidate
    else if support >= 2 && 5 * top >= 4 * support then ReviewCandidate
    else if support > 0 then AmbiguousTarget
    else Unmapped
  }

  function MakeRow(category: string, total: nat, sourceOnly: nat, counter: Counter): MappingRow {
    var support, ranked := Total(counter), Ranked(counter);
    var top := if ranked == [] then (("", ""), 0) else ranked[0];
    MappingRow(category, total, sourceOnly, support, top.0, top.1, ranked, StatusOf(support, top.1))
  }

  function RowFor(rows: seq<SourceRow>, matches: seq<MatchRecord>, catalog: map<int, Target>,
                  category: string): MappingRow {
    MakeRow(category, multiset(Categories(rows))[category], multiset(SourceOnly(ById(rows), matches))[category],
            CounterOf(Evidence(ById(rows), matches, catalog), category))
  }

  predicate Candidate(status: MappingStatus) { status == StrongCandidate || status == ReviewCandidate }

  function ProposalFor(status: MappingStatus): ProposalStatus {
    if Candidate(status) then ReviewOnly
    else if status == AmbiguousTarget then BlockedAmbiguous
    else BlockedUnmapped
  }

  function ProductFor(rows: seq<SourceRow>, matches: seq<MatchRecord>, catalog: map<int, Target>,
                      m: MatchRecord): ProductRow {
    var row := RowFor(rows, matches, catalog, CategoryOf(ById(rows), m));
    ProductRow(m.id, row.category, row.suggested, row.status, ProposalFor(row.status))
  }

  /** The product rows of some of the matches, before sorting. */
  function Products(rows: seq<SourceRow>, matches: seq<MatchRecord>, catalog: map<int, Target>,
                    some: seq<MatchRecord>): seq<ProductRow> {
    if some == [] then []
    else
      var last := some[|some| - 1];
      Products(rows, matches, catalog, some[..|some| - 1])
      + (if last.status == Unmatched then [ProductFor(rows, matches, catalog, last)] else [])
  }

  predicate IdAtMost(a: ProductRow, b: ProductRow) { Below(a.id, b.id) }

  function CountStatus(mapping: seq<MappingRow>, status: MappingStatus): nat {
    if mapping == [] then 0
    else CountStatus(mapping[..|mapping| - 1], status) + (if mapping[|mapping| - 1].status == status then 1 else 0)
  }

  predicate IsReviewOnly(p: ProductRow) { p.status == ReviewOnly }

  datatype Mapping = Mapping(mapping: seq<MappingRow>, products: seq<ProductRow>, summary: Summary)

  /** The whole result. */
  ghost predicate IsMapping(rows: seq<SourceRow>, matches: seq<MatchRecord>, catalog: map<int, Target>,
                            order: seq<string>, r: Mapping)
  {
    && Lists(order, (set c | c in Categories(rows)), Below)
    && |r.mapping| == |order|
    && (forall i | 0 <= i < |order| :: r.mapping[i] == RowFor(rows, matches, catalog, order[i]))
    && r.products == Sort(Products(rows, matches, catalog, matches), IdAtMost)
    && r.summary == Summary(|r.mapping|, |r.products|,
                            CountStatus(r.mapping, StrongCandidate), CountStatus(r.mapping, ReviewCandidate),
                            CountStatus(r.mapping, AmbiguousTarget), CountStatus(r.mapping, Unmapped),
                            Count(r.products, IsReviewOnly))
  }

  // ------------------------------------------------------------------ algorithm

  function Bump(counts: map<string, nat>, k: string): map<string, nat> {
    counts[k := (if k in counts then counts[k] else 0) + 1]
  }

  ghost predicate Tallies(counts: map<string, nat>, s: seq<string>) {
    && (forall c | c in counts :: c in s)
    && forall c :: multiset(s)[c] == if c in counts then counts[c] else 0
  }

  lemma TallyNext(counts: map<string, nat>, s: seq<string>, x: string)
    requires Tallies(counts, s)
    ensures Tallies(Bump(counts, x), s + [x])
  {}

  ghost predicate Learns(learned: map<string, Counter>, evidence: seq<(string, Target)>) {
    forall c :: CounterOf(evidence, c) == if c in learned then learned[c] else []
  }

  lemma LearnNext(learned: map<string, Counter>, evidence: seq<(string, Target)>, c: string, t: Target)
    requires Learns(learned, evidence)
    ensures Learns(learned[c := Add(if c in learned then learned[c] else [], t)], evidence + [(c, t)])
  {
    assert (evidence + [(c, t)])[..|evidence|] == evidence;
  }

  method CountRows(rows: seq<SourceRow>) returns (byId: map<string, SourceRow>, counts: map<string, nat>)
    ensures byId == ById(rows) && Tallies(counts, Categories(rows))
  {
    byId, counts := map[], map[];
    for i := 0 to |rows|
      invariant byId == ById(rows[..i]) && Tallies(counts, Categories(rows[..i]))
    {
      assert rows[..i + 1][..i] == rows[..i];
      TallyNext(counts, Categories(rows[..i]), rows[i].category);
      byId := byId[rows[i].id := rows[i]];
      counts := Bump(counts, rows[i].category);
      hide Tallies;
    }
    assert rows[..|rows|] == rows;
  }

  lemma NothingLearnt()
    ensures Tallies(map[], []) && Learns(map[], [])
  {}

  /** The first loop over the matches. */
  method Learn(byId: map<string, SourceRow>, matches: seq<MatchRecord>, catalog: map<int, Target>)
      returns (r: Result<(map<string, nat>, map<string, Counter>), Error>)
    ensures r.Ok? <==> AllResolvable(byId, matches, catalog)
    ensures r.Ok? ==> Tallies(r.value.0, SourceOnly(byId, matches))
                      && Learns(r.value.1, Evidence(byId, matches, catalog))
  {
    var sourceOnly: map<string, nat>, learned: map<string, Counter> := map[], map[];
    hide Tallies, Learns, Bump, Add;
    NothingLearnt();
    for i := 0 to |matches|
      invariant forall j | 0 <= j < i :: Resolvable(byId, matches[j], catalog)
      invariant Tallies(sourceOnly, SourceOnly(byId, matches[..i]))
      invariant Learns(learned, Evidence(byId, matches[..i], catalog))
    {
      hide SourceOnly, Evidence;
      var m := matches[i];
      LearnStep(byId, matches, catalog, i);
      if m.id !in byId { return Err(UnknownSupplierItem); }
      var category := byId[m.id].category;
      if m.status == Unmatched {
        TallyNext(sourceOnly, SourceOnly(byId, matches[..i]), category);
        sourceOnly := Bump(sourceOnly, category);
      } else if m.status == Exact && m.product.Some? {
        if m.product.value !in catalog { return Err(UnknownProduct); }
        var target := catalog[m.product.value];
        LearnNext(learned, Evidence(byId, matches[..i], catalog), category, target);
        learned := learned[category := Add(if category in learned then learned[category] else [], target)];
      }
    }
    assert matches[..|matches|] == matches;
    return Ok((sourceOnly, learned));
  }

  lemma LearnStep(byId: map<string, SourceRow>, matches: seq<MatchRecord>, catalog: map<int, Target>, i: nat)
    requires i < |matches|
    ensures SourceOnly(byId, matches[..i + 1]) ==
              if matches[i].status == Unmatched then SourceOnly(byId, matches[..i]) + [CategoryOf(byId, matches[i])]
              else SourceOnly(byId, matches[..i])
    ensures Evidence(byId, matches[..i + 1], catalog) ==
              if Teaches(matches[i])
              then Evidence(byId, matches[..i], catalog)
                  + [(CategoryOf(byId, matches[i]), TargetOf(catalog, matches[i]))]
              else Evidence(byId, matches[..i], catalog)
  {
    assert matches[..i + 1][..i] == matches[..i];
  }

  lemma RowFromCounts(rows: seq<SourceRow>, matches: seq<MatchRecord>, catalog: map<int, Target>,
                      counts: map<string, nat>, sourceOnly: map<string, nat>, learned: map<string, Counter>, c: string)
    requires Tallies(counts, Categories(rows)) && Tallies(sourceOnly, SourceOnly(ById(rows), matches))
    requires Learns(learned, Evidence(ById(rows), matches, catalog))
    requires c in counts
    ensures RowFor(rows, matches, catalog, c)
            == MakeRow(c, counts[c], if c in sourceOnly then sourceOnly[c] else 0,
                       if c in learned then learned[c] else [])
  {
    hide MakeRow;
  }

  /** The loop over the sorted categories. */
  method MappingRows(ghost rows: seq<SourceRow>, ghost matches: seq<MatchRecord>, ghost catalog: map<int, Target>,
                     counts: map<string, nat>, sourceOnly: map<string, nat>, learned: map<string, Counter>)
      returns (order: seq<string>, mapping: seq<MappingRow>, bySource: map<string, MappingRow>)
    requires Tallies(counts, Categories(rows)) && Tallies(sourceOnly, SourceOnly(ById(rows), matches))
    requires Learns(learned, Evidence(ById(rows), matches, catalog))
    ensures Lists(order, counts.Keys, Below)
    ensures |mapping| == |order|
    ensures forall i | 0 <= i < |order| :: mapping[i] == RowFor(rows, matches, catalog, order[i])
    ensures forall c | c in counts :: c in bySource
    ensures forall c | c in bySource :: bySource[c] == RowFor(rows, matches, catalog, c)
  {
    hide *;
    order := SortedKeys(counts.Keys);
    mapping, bySource := [], map[];
    for i := 0 to |order|
      invariant |mapping| == i && forall j | 0 <= j < i :: mapping[j] == RowFor(rows, matches, catalog, order[j])
      invariant forall j | 0 <= j < i :: order[j] in bySource
      invariant forall c | c in bySource :: bySource[c] == RowFor(rows, matches, catalog, c)
    {
      var c := order[i];
      ListedOnly(order, counts.Keys, Below, i);
      var row := MakeRow(c, counts[c], if c in sourceOnly then sourceOnly[c] else 0,
                         if c in learned then learned[c] else []);
      RowFromCounts(rows, matches, catalog, counts, sourceOnly, learned, c);
      mapping := mapping + [row];
      bySource := bySource[c := row];
    }
    forall c | c in counts ensures c in bySource {
      var j := ListedAt(order, counts.Keys, Below, c);
    }
  }

  /** `build_category_mapping`. */
  method BuildCategoryMapping(rows: seq<SourceRow>, matches: seq<MatchRecord>, catalog: map<int, Target>)
      returns (r: Result<Mapping, Error>, order: seq<string>)
    ensures r.Ok? <==> AllResolvable(ById(rows), matches, catalog)
    ensures r.Ok? ==> IsMapping(rows, matches, catalog, order, r.value)
  {
    hide ById, Categories, SourceOnly, Evidence, MakeRow, RowFor, Lists, Tallies, Learns, Products, Sort, CategoryOf,
         AllResolvable, CountStatus, Count;
    order := [];
    var byId, counts := CountRows(rows);
    var learning := Learn(byId, matches, catalog);
    if learning.Err? { return Err(learning.error), order; }
    var mapping, bySource;
    order, mapping, bySource := MappingRows(rows, matches, catalog, counts, learning.value.0, learning.value.1);
    TalliedKeys(counts, Categories(rows));
    forall m | m in matches ensures CategoryOf(byId, m) in bySource {
      CategoryIsListed(rows, matches, catalog, m);
    }
    var products := ProductRows(rows, matches, catalog, byId, bySource);
    return Ok(Mapping(mapping, products,
                      Summary(|mapping|, |products|,
                              CountStatus(mapping, StrongCandidate), CountStatus(mapping, ReviewCandidate),
                              CountStatus(mapping, AmbiguousTarget), CountStatus(mapping, Unmapped),
                              Count(products, IsReviewOnly)))), order;
  }

  lemma TalliedKeys(counts: map<string, nat>, s: seq<string>)
    requires Tallies(counts, s)
    ensures counts.Keys == set c | c in s
  {
    forall c | c in s ensures c in counts { assert c in multiset(s); }
  }

  lemma {:induction false} RowsById(rows: seq<SourceRow>, id: string)
    requires id in ById(rows)
    ensures ById(rows)[id].category in Categories(rows)
  {
    var front, last := rows[..|rows| - 1], rows[|rows| - 1];
    if id != last.id { RowsById(front, id); }
  }

  lemma CategoryIsListed(rows: seq<SourceRow>, matches: seq<MatchRecord>, catalog: map<int, Target>, m: MatchRecord)
    requires AllResolvable(ById(rows), matches, catalog) && m in matches
    ensures CategoryOf(ById(rows), m) in Categories(rows)
  {
    var i :| 0 <= i < |matches| && matches[i] == m;
    assert Resolvable(ById(rows), matches[i], catalog);
    RowsById(rows, m.id);
  }

  /** The second loop over the matches, and the sort. */
  method ProductRows(ghost rows: seq<SourceRow>, matches: seq<MatchRecord>, ghost catalog: map<int, Target>,
                     byId: map<string, SourceRow>, bySource: map<string, MappingRow>)
      returns (products: seq<ProductRow>)
    requires byId == ById(rows) && forall m | m in matches :: CategoryOf(byId, m) in bySource
    requires forall c | c in bySource :: bySource[c] == RowFor(rows, matches, catalog, c)
    ensures products == Sort(Products(rows, matches, catalog, matches), IdAtMost)
  {
    products := [];
    hide RowFor;
    for i := 0 to |matches|
      invariant products == Products(rows, matches, catalog, matches[..i])
    {
      var m := matches[i];
      assert matches[..i + 1][..i] == matches[..i];
      if m.status == Unmatched {
        var row := bySource[CategoryOf(byId, m)];
        assert row.category == CategoryOf(byId, m) by { RowCategory(rows, matches, catalog, CategoryOf(byId, m)); }
        products := products + [ProductRow(m.id, row.category, row.suggested, row.status, ProposalFor(row.status))];
      }
    }
    assert matches[..|matches|] == matches;
    products := Sort(products, IdAtMost);
  }

  lemma RowCategory(rows: seq<SourceRow>, matches: seq<MatchRecord>, catalog: map<int, Target>, c: string)
    ensures RowFor(rows, matches, catalog, c).category == c
  {}
}
