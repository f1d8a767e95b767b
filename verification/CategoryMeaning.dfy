/** What the category mapping says, in terms of the items, the matches and the catalogue alone: every
    figure is a number of positions. */
module CategoryMeaning {
  import opened Common
  import opened Ordering
  import opened Catalogue
  import opened CategoryMapping
  import CategoryLaws

  /** The positions at which something holds. */
  ghost function Where<T(!new)>(s: seq<T>, p: T -> bool): set<nat> { set k: nat | k < |s| && p(s[k]) }

  lemma WhereNext<T(!new)>(s: seq<T>, x: T, p: T -> bool)
    ensures |Where(s + [x], p)| == |Where(s, p)| + if p(x) then 1 else 0
  {
    assert Where(s + [x], p) == if p(x) then Where(s, p) + {|s|} else Where(s, p);
  }

  /** The item of this match, the last one with its id, is in this category. */
  ghost predicate InCategory(rows: seq<SourceRow>, m: MatchRecord, c: string) {
    exists i | 0 <= i < |rows| ::
      rows[i].id == m.id && rows[i].category == c && forall j | i < j < |rows| :: rows[j].id != m.id
  }

  lemma {:induction false} ByIdMeans(rows: seq<SourceRow>, id: string)
    ensures id in ById(rows) <==> exists i | 0 <= i < |rows| :: rows[i].id == id
    ensures id in ById(rows) ==> exists i | 0 <= i < |rows| ::
              rows[i] == ById(rows)[id] && rows[i].id == id && forall j | i < j < |rows| :: rows[j].id != id
  {
    if rows != [] {
      ByIdMeans(rows[..|rows| - 1], id);
    }
  }

  lemma CategoryMeans(rows: seq<SourceRow>, m: MatchRecord, c: string)
    requires m.id in ById(rows)
    ensures CategoryOf(ById(rows), m) == c <==> InCategory(rows, m, c)
  {
    ByIdMeans(rows, m.id);
    hide ById;
  }

  /** Every match is about an item, and every exact one with a product about a product of the catalogue. */
  ghost predicate Resolves(rows: seq<SourceRow>, matches: seq<MatchRecord>, catalog: map<int, Target>) {
    forall k | 0 <= k < |matches| ::
      && (exists i | 0 <= i < |rows| :: rows[i].id == matches[k].id)
      && (matches[k].status == Exact && matches[k].product.Some? ==> matches[k].product.value in catalog)
  }

  /** Building a mapping succeeds exactly if that is so. */
  lemma ResolvesMeans(rows: seq<SourceRow>, matches: seq<MatchRecord>, catalog: map<int, Target>)
    ensures AllResolvable(ById(rows), matches, catalog) <==> Resolves(rows, matches, catalog)
  {
    forall k | 0 <= k < |matches|
      ensures Resolvable(ById(rows), matches[k], catalog) <==>
                && (exists i | 0 <= i < |rows| :: rows[i].id == matches[k].id)
                && (matches[k].status == Exact && matches[k].product.Some? ==> matches[k].product.value in catalog)
    {
      ByIdMeans(rows, matches[k].id);
    }
    hide ById, Resolvable;
  }

  /** One more match, seen from one category and one target. */
  lemma OneMoreMatch(rows: seq<SourceRow>, front: seq<MatchRecord>, last: MatchRecord, catalog: map<int, Target>,
                     c: string, t: Target)
    requires Resolves(rows, front + [last], catalog)
    ensures var byId := ById(rows);
            var was, now := Evidence(byId, front, catalog), Evidence(byId, front + [last], catalog);
            var here := last.status == Exact && last.product.Some? && InCategory(rows, last, c);
            && multiset(Learners(now))[c] == multiset(Learners(was))[c] + (if here then 1 else 0)
            && multiset(now)[(c, t)] == multiset(was)[(c, t)]
                 + (if here && last.product.value in catalog && catalog[last.product.value] == t then 1 else 0)
            && multiset(SourceOnly(byId, front + [last]))[c] == multiset(SourceOnly(byId, front))[c]
                 + (if last.status == Unmatched && InCategory(rows, last, c) then 1 else 0)
  {
    hide InCategory, ById, CategoryOf, Learners, Evidence, SourceOnly, Resolves, AllResolvable, Resolvable;
    var byId, all := ById(rows), front + [last];
    assert all[..|front| + 1] == all && all[..|front|] == front && all[|front|] == last;
    LastResolves(rows, front, last, catalog);
    LearnStep(byId, all, catalog, |front|);
    CategoryMeans(rows, last, c);
    var was, x := Evidence(byId, front, catalog), (CategoryOf(byId, last), TargetOf(catalog, last));
    CategoryLaws.EvidenceGrows(was, x, c);
  }

  lemma LastResolves(rows: seq<SourceRow>, front: seq<MatchRecord>, last: MatchRecord, catalog: map<int, Target>)
    requires Resolves(rows, front + [last], catalog)
    ensures last.id in ById(rows)
    ensures last.status == Exact && last.product.Some? ==> last.product.value in catalog
  {
    assert (front + [last])[|front|] == last;
    ByIdMeans(rows, last.id);
    hide ById;
  }

  lemma ResolvesFront(rows: seq<SourceRow>, front: seq<MatchRecord>, last: MatchRecord, catalog: map<int, Target>)
    requires Resolves(rows, front + [last], catalog)
    ensures Resolves(rows, front, catalog)
  {
    assert forall k | 0 <= k < |front| :: front[k] == (front + [last])[k];
  }

  lemma NothingCounted(rows: seq<SourceRow>, catalog: map<int, Target>, c: string, t: Target)
    ensures multiset(Learners(Evidence(ById(rows), [], catalog)))[c] == 0
    ensures multiset(Evidence(ById(rows), [], catalog))[(c, t)] == 0
    ensures multiset(SourceOnly(ById(rows), []))[c] == 0
    ensures forall p: MatchRecord -> bool :: Where([], p) == {}
  {}

  /** The evidence and the unmatched items, counted at positions. */
  lemma {:induction false} MatchesCount(rows: seq<SourceRow>, matches: seq<MatchRecord>, catalog: map<int, Target>,
                                        c: string, t: Target, exact: MatchRecord -> bool, goes: MatchRecord -> bool,
                                        only: MatchRecord -> bool)
    requires Resolves(rows, matches, catalog)
    requires forall m :: exact(m) <==> m.status == Exact && m.product.Some? && InCategory(rows, m, c)
    requires forall m :: goes(m) <==>
                           exact(m) && m.product.Some? && m.product.value in catalog && catalog[m.product.value] == t
    requires forall m :: only(m) <==> m.status == Unmatched && InCategory(rows, m, c)
    ensures multiset(Learners(Evidence(ById(rows), matches, catalog)))[c] == |Where(matches, exact)|
    ensures multiset(Evidence(ById(rows), matches, catalog))[(c, t)] == |Where(matches, goes)|
    ensures multiset(SourceOnly(ById(rows), matches))[c] == |Where(matches, only)|
  {
    hide InCategory, ById, Learners, Evidence, SourceOnly, Resolves, Where;
    if matches == [] {
      NothingCounted(rows, catalog, c, t);
    } else {
      var front, last := matches[..|matches| - 1], matches[|matches| - 1];
      assert matches == front + [last];
      ResolvesFront(rows, front, last, catalog);
      MatchesCount(rows, front, catalog, c, t, exact, goes, only);
      OneMoreMatch(rows, front, last, catalog, c, t);
      WhereNext(front, last, exact);
      WhereNext(front, last, goes);
      WhereNext(front, last, only);
    }
  }

  // ------------------------------------------------------------------------- the figures

  ghost function ItemsIn(rows: seq<SourceRow>, c: string): set<nat> { set i: nat | i < |rows| && rows[i].category == c }

  /** Exact matches, with a product, of items of the category. */
  ghost function ExactIn(rows: seq<SourceRow>, matches: seq<MatchRecord>, c: string): set<nat> {
    set k: nat | k < |matches| && matches[k].status == Exact && matches[k].product.Some?
                 && InCategory(rows, matches[k], c)
  }

  /** ... whose product is in this catalogue category. */
  ghost function GoingTo(rows: seq<SourceRow>, matches: seq<MatchRecord>, catalog: map<int, Target>, c: string,
                         t: Target): set<nat> {
    set k: nat | k < |matches| && matches[k].status == Exact && matches[k].product.Some?
                 && InCategory(rows, matches[k], c)
                 && matches[k].product.value in catalog && catalog[matches[k].product.value] == t
  }

  ghost function UnmatchedIn(rows: seq<SourceRow>, matches: seq<MatchRecord>, c: string): set<nat> {
    set k: nat | k < |matches| && matches[k].status == Unmatched && InCategory(rows, matches[k], c)
  }

  lemma MatchFigures(rows: seq<SourceRow>, matches: seq<MatchRecord>, catalog: map<int, Target>, c: string, t: Target)
    requires Resolves(rows, matches, catalog)
    ensures multiset(Learners(Evidence(ById(rows), matches, catalog)))[c] == |ExactIn(rows, matches, c)|
    ensures multiset(Evidence(ById(rows), matches, catalog))[(c, t)] == |GoingTo(rows, matches, catalog, c, t)|
    ensures multiset(SourceOnly(ById(rows), matches))[c] == |UnmatchedIn(rows, matches, c)|
  {
    hide InCategory, ById, Learners, Evidence, SourceOnly, Resolves;
    var exact := (m: MatchRecord) => m.status == Exact && m.product.Some? && InCategory(rows, m, c);
    var goes := (m: MatchRecord) =>
        exact(m) && m.product.Some? && m.product.value in catalog && catalog[m.product.value] == t;
    var only := (m: MatchRecord) => m.status == Unmatched && InCategory(rows, m, c);
    MatchesCount(rows, matches, catalog, c, t, exact, goes, only);
    assert Where(matches, exact) == ExactIn(rows, matches, c);
    assert Where(matches, goes) == GoingTo(rows, matches, catalog, c, t);
    assert Where(matches, only) == UnmatchedIn(rows, matches, c);
  }

  lemma {:induction false} ItemsCount(rows: seq<SourceRow>, c: string, here: SourceRow -> bool)
    requires forall row :: here(row) <==> row.category == c
    ensures multiset(Categories(rows))[c] == |Where(rows, here)|
  {
    hide Where;
    if rows == [] {
      NoItems(here);
    } else {
      var front, last := rows[..|rows| - 1], rows[|rows| - 1];
      ItemsCount(front, c, here);
      assert rows == front + [last];
      WhereNext(front, last, here);
    }
  }

  lemma NoItems(here: SourceRow -> bool)
    ensures Where([], here) == {}
  {}

  lemma ItemFigures(rows: seq<SourceRow>, c: string)
    ensures multiset(Categories(rows))[c] == |ItemsIn(rows, c)|
  {
    var here := (row: SourceRow) => row.category == c;
    ItemsCount(rows, c, here);
    hide Categories;
    assert Where(rows, here) == ItemsIn(rows, c);
  }

  /** A mapping row, figure by figure. */
  ghost predicate RowSays(rows: seq<SourceRow>, matches: seq<MatchRecord>, catalog: map<int, Target>, c: string,
                          row: MappingRow)
  {
    && row.category == c
    && row.total == |ItemsIn(rows, c)| && row.sourceOnly == |UnmatchedIn(rows, matches, c)|
    && row.support == |ExactIn(rows, matches, c)|
    && (forall t :: |GoingTo(rows, matches, catalog, c, t)| <= row.dominant)
    && (row.support > 0 ==> |GoingTo(rows, matches, catalog, c, row.suggested)| == row.dominant > 0)
    && (row.support == 0 ==> row.suggested == ("", "") && row.dominant == 0)
    && (forall t, n: nat :: (t, n) in row.alternatives <==> n > 0 && |GoingTo(rows, matches, catalog, c, t)| == n)
    && (forall i, j | 0 <= i < j < |row.alternatives| ::
          row.alternatives[i] != row.alternatives[j] && row.alternatives[i].1 >= row.alternatives[j].1)
    && row.status == (if row.support >= 3 && row.dominant == row.support then StrongCandidate
                      else if row.support >= 2 && 10 * row.dominant >= 8 * row.support then ReviewCandidate
                      else if row.support >= 1 then AmbiguousTarget
                      else Unmapped)
  }

  lemma RowMeans(rows: seq<SourceRow>, matches: seq<MatchRecord>, catalog: map<int, Target>, c: string)
    requires Resolves(rows, matches, catalog)
    ensures RowSays(rows, matches, catalog, c, RowFor(rows, matches, catalog, c))
  {
    hide ById, Learners, Evidence, SourceOnly, Resolves, ExactIn, GoingTo, UnmatchedIn, ItemsIn, Categories, MakeRow,
         CounterOf, CategoryLaws.RowReads, CategoryLaws.Weight;
    var evidence, only := Evidence(ById(rows), matches, catalog), SourceOnly(ById(rows), matches);
    var row := RowFor(rows, matches, catalog, c);
    forall t ensures CategoryLaws.Weight(evidence, c, t) == |GoingTo(rows, matches, catalog, c, t)| {
      MatchFigures(rows, matches, catalog, c, t);
      WeightMeans(evidence, c, t);
    }
    MatchFigures(rows, matches, catalog, c, ("", ""));
    ItemFigures(rows, c);
    CategoryLaws.CounterRowMeans(evidence, c, multiset(Categories(rows))[c], multiset(only)[c]);
    RowStatus(c, multiset(Categories(rows))[c], multiset(only)[c], evidence);
    RowTranslates(rows, matches, catalog, c, row, evidence);
  }

  lemma WeightMeans(evidence: seq<(string, Target)>, c: string, t: Target)
    ensures CategoryLaws.Weight(evidence, c, t) == multiset(evidence)[(c, t)]
  {}

  lemma RowStatus(c: string, total: nat, only: nat, evidence: seq<(string, Target)>)
    ensures var row := MakeRow(c, total, only, CounterOf(evidence, c));
            && row.category == c && row.total == total && row.sourceOnly == only
            && row.status == (if row.support >= 3 && row.dominant == row.support then StrongCandidate
                              else if row.support >= 2 && 10 * row.dominant >= 8 * row.support then ReviewCandidate
                              else if row.support >= 1 then AmbiguousTarget
                              else Unmapped)
  {
    CategoryLaws.CounterCounts(evidence, c);
    CategoryLaws.MadeRow(c, total, only, CounterOf(evidence, c));
    hide CounterOf, Total, Ranked;
  }

  lemma RowTranslates(rows: seq<SourceRow>, matches: seq<MatchRecord>, catalog: map<int, Target>, c: string,
                      row: MappingRow, evidence: seq<(string, Target)>)
    requires CategoryLaws.RowReads(row, evidence, c)
    requires forall t :: CategoryLaws.Weight(evidence, c, t) == |GoingTo(rows, matches, catalog, c, t)|
    requires multiset(Learners(evidence))[c] == |ExactIn(rows, matches, c)|
    requires row.category == c && row.total == |ItemsIn(rows, c)| && row.sourceOnly == |UnmatchedIn(rows, matches, c)|
    requires row.status == (if row.support >= 3 && row.dominant == row.support then StrongCandidate
                            else if row.support >= 2 && 10 * row.dominant >= 8 * row.support then ReviewCandidate
                            else if row.support >= 1 then AmbiguousTarget
                            else Unmapped)
    ensures RowSays(rows, matches, catalog, c, row)
  {
    hide Learners, ExactIn, GoingTo, UnmatchedIn, ItemsIn, CategoryLaws.Weight;
  }

  // --------------------------------------------------------------------- main theorems

  /** One row for each category of an item, in ascending order; each says what the positions say. */
  lemma MappingMeans(rows: seq<SourceRow>, matches: seq<MatchRecord>, catalog: map<int, Target>, order: seq<string>,
                     r: Mapping)
    requires Resolves(rows, matches, catalog) && IsMapping(rows, matches, catalog, order, r)
    ensures |r.mapping| == |order| && forall i | 0 <= i < |order| :: r.mapping[i].category == order[i]
    ensures forall c :: c in order <==> exists i | 0 <= i < |rows| :: rows[i].category == c
    ensures forall i, j | 0 <= i < j < |order| :: Below(order[i], order[j]) && order[i] != order[j]
    ensures forall i | 0 <= i < |order| :: RowSays(rows, matches, catalog, order[i], r.mapping[i])
  {
    CategoryLaws.CategoriesLength(rows);
    hide RowFor, RowSays, Resolves, Products, Sort, CountStatus, Count;
    forall i | 0 <= i < |order| ensures RowSays(rows, matches, catalog, order[i], r.mapping[i]) {
      RowMeans(rows, matches, catalog, order[i]);
    }
    forall c ensures c in Categories(rows) <==> exists i | 0 <= i < |rows| :: rows[i].category == c {
      if c in Categories(rows) {
        var i :| 0 <= i < |Categories(rows)| && Categories(rows)[i] == c;
        assert rows[i].category == c;
      }
      forall i | 0 <= i < |rows| && rows[i].category == c ensures c in Categories(rows) {
        assert Categories(rows)[i] == c;
      }
    }
    forall i | 0 <= i < |order| ensures r.mapping[i].category == order[i] {
      RowCategory(rows, matches, catalog, order[i]);
    }
  }

  lemma {:induction false} CountIsWhere<T(!new)>(s: seq<T>, p: T -> bool)
    ensures Count(s, p) == |Where(s, p)|
  {
    if s == [] {
      assert Where(s, p) == {};
    } else {
      var front, last := s[..|s| - 1], s[|s| - 1];
      assert s == front + [last];
      CountIsWhere(front, p);
      CategoryLaws.CountOne(front, last, p);
      WhereNext(front, last, p);
      hide Where, Count;
    }
  }

  lemma {:induction false} StatusIsWhere(mapping: seq<MappingRow>, status: MappingStatus, p: MappingRow -> bool)
    requires forall row :: p(row) <==> row.status == status
    ensures CountStatus(mapping, status) == |Where(mapping, p)|
  {
    if mapping == [] {
      assert Where(mapping, p) == {};
    } else {
      var front, last := mapping[..|mapping| - 1], mapping[|mapping| - 1];
      assert mapping == front + [last];
      StatusIsWhere(front, status, p);
      WhereNext(front, last, p);
      hide Where;
    }
  }

  /** The rows with this status. */
  ghost function RowsWith(mapping: seq<MappingRow>, status: MappingStatus): set<nat> {
    set i: nat | i < |mapping| && mapping[i].status == status
  }

  lemma StatusFigures(mapping: seq<MappingRow>, status: MappingStatus)
    ensures CountStatus(mapping, status) == |RowsWith(mapping, status)|
  {
    var p := (row: MappingRow) => row.status == status;
    StatusIsWhere(mapping, status, p);
    hide CountStatus;
    assert Where(mapping, p) == RowsWith(mapping, status);
  }

  /** The summary, figure by figure. */
  lemma SummaryMeans(rows: seq<SourceRow>, matches: seq<MatchRecord>, catalog: map<int, Target>, order: seq<string>,
                     r: Mapping)
    requires Resolves(rows, matches, catalog) && IsMapping(rows, matches, catalog, order, r)
    ensures r.summary.categories == |r.mapping|
    ensures r.summary.sourceOnly == |set k: nat | k < |matches| && matches[k].status == Unmatched|
    ensures r.summary.strong == |RowsWith(r.mapping, StrongCandidate)|
    ensures r.summary.review == |RowsWith(r.mapping, ReviewCandidate)|
    ensures r.summary.ambiguous == |RowsWith(r.mapping, AmbiguousTarget)|
    ensures r.summary.unmapped == |RowsWith(r.mapping, Unmapped)|
    ensures r.summary.withCandidate == |set j: nat | j < |r.products| && r.products[j].status == ReviewOnly|
  {
    ResolvesMeans(rows, matches, catalog);
    hide RowFor, Products, Resolves, AllResolvable, ById, Sort, Lists, Categories, CountStatus, Count;
    CategoryLaws.Conservation(rows, matches, catalog, order, r);
    StatusFigures(r.mapping, StrongCandidate);
    StatusFigures(r.mapping, ReviewCandidate);
    StatusFigures(r.mapping, AmbiguousTarget);
    StatusFigures(r.mapping, Unmapped);
    CountIsWhere(r.products, IsReviewOnly);
    assert Where(r.products, IsReviewOnly) == set j: nat | j < |r.products| && r.products[j].status == ReviewOnly;
    CountIsWhere(matches, CategoryLaws.IsUnmatched);
    assert Where(matches, CategoryLaws.IsUnmatched) == set k: nat | k < |matches| && matches[k].status == Unmatched;
  }

  /** A product row stands for this unmatched item, with the advice of the row of its category. */
  ghost predicate Advises(rows: seq<SourceRow>, m: MatchRecord, mapping: seq<MappingRow>, p: ProductRow) {
    && p.id == m.id && InCategory(rows, m, p.category)
    && exists i | 0 <= i < |mapping| ::
         && mapping[i].category == p.category && p.suggested == mapping[i].suggested && p.mapping == mapping[i].status
         && p.status == (match mapping[i].status
                         case StrongCandidate => ReviewOnly
                         case ReviewCandidate => ReviewOnly
                         case AmbiguousTarget => BlockedAmbiguous
                         case Unmapped => BlockedUnmapped)
  }

  lemma ProductAdvises(rows: seq<SourceRow>, matches: seq<MatchRecord>, catalog: map<int, Target>, order: seq<string>,
                       r: Mapping, m: MatchRecord)
    requires Resolves(rows, matches, catalog) && IsMapping(rows, matches, catalog, order, r) && m in matches
    ensures Advises(rows, m, r.mapping, ProductFor(rows, matches, catalog, m))
  {
    ResolvesMeans(rows, matches, catalog);
    var c, p := CategoryOf(ById(rows), m), ProductFor(rows, matches, catalog, m);
    hide ById, RowFor, Products, Sort, CountStatus, Count, CategoryOf, AllResolvable, Resolves, Categories, InCategory;
    CategoryIsListed(rows, matches, catalog, m);
    var i := ListedAt(order, (set x | x in Categories(rows)), Below, c);
    RowCategory(rows, matches, catalog, c);
    var k :| 0 <= k < |matches| && matches[k] == m;
    KnownId(rows, matches, catalog, k);
    CategoryMeans(rows, m, c);
    assert r.mapping[i].category == p.category;
  }

  lemma KnownId(rows: seq<SourceRow>, matches: seq<MatchRecord>, catalog: map<int, Target>, k: nat)
    requires Resolves(rows, matches, catalog) && k < |matches|
    ensures matches[k].id in ById(rows)
  {
    ByIdMeans(rows, matches[k].id);
    hide ById;
  }

  lemma AdviceFor(rows: seq<SourceRow>, matches: seq<MatchRecord>, catalog: map<int, Target>, order: seq<string>,
                  r: Mapping, k: nat) returns (p: ProductRow)
    requires Resolves(rows, matches, catalog) && IsMapping(rows, matches, catalog, order, r)
    requires k < |matches| && matches[k].status == Unmatched
    ensures p in r.products && Advises(rows, matches[k], r.mapping, p)
  {
    ResolvesMeans(rows, matches, catalog);
    hide IsMapping, RowFor, Resolves, AllResolvable, ById, Advises, ProductFor, CategoryLaws.SameAdvice;
    CategoryLaws.ProductRowsMean(rows, matches, catalog, order, r);
    p := ProductFor(rows, matches, catalog, matches[k]);
    ProductAdvises(rows, matches, catalog, order, r, matches[k]);
  }

  lemma AdviceOn(rows: seq<SourceRow>, matches: seq<MatchRecord>, catalog: map<int, Target>, order: seq<string>,
                 r: Mapping, p: ProductRow) returns (k: nat)
    requires Resolves(rows, matches, catalog) && IsMapping(rows, matches, catalog, order, r) && p in r.products
    ensures k < |matches| && matches[k].status == Unmatched && Advises(rows, matches[k], r.mapping, p)
  {
    UnsortedRow(rows, matches, catalog, order, r, p);
    hide IsMapping, RowFor, Resolves, ById, Advises, ProductFor, Products;
    CategoryLaws.ProductsAreUnmatched(rows, matches, catalog, matches, p);
    var m :| m in matches && m.status == Unmatched && p == ProductFor(rows, matches, catalog, m);
    k :| 0 <= k < |matches| && matches[k] == m;
    ProductAdvises(rows, matches, catalog, order, r, m);
  }

  lemma UnsortedRow(rows: seq<SourceRow>, matches: seq<MatchRecord>, catalog: map<int, Target>, order: seq<string>,
                    r: Mapping, p: ProductRow)
    requires IsMapping(rows, matches, catalog, order, r) && p in r.products
    ensures p in Products(rows, matches, catalog, matches)
  {
    hide RowFor, Products, ById, Lists, Categories, CountStatus, Count, Sort;
    SortElements(Products(rows, matches, catalog, matches), IdAtMost);
    assert p in multiset(r.products);
  }

  /** The product rows are those of the unmatched items, one for each, sorted by id. */
  lemma ProductRowsSay(rows: seq<SourceRow>, matches: seq<MatchRecord>, catalog: map<int, Target>, order: seq<string>,
                       r: Mapping)
    requires Resolves(rows, matches, catalog) && IsMapping(rows, matches, catalog, order, r)
    ensures forall i, j | 0 <= i < j < |r.products| :: Below(r.products[i].id, r.products[j].id)
    ensures |r.products| == |set k: nat | k < |matches| && matches[k].status == Unmatched|
    ensures forall k | 0 <= k < |matches| && matches[k].status == Unmatched ::
              exists p :: p in r.products && Advises(rows, matches[k], r.mapping, p)
    ensures forall p | p in r.products ::
              exists k | 0 <= k < |matches| ::
                matches[k].status == Unmatched && Advises(rows, matches[k], r.mapping, p)
  {
    hide IsMapping, Resolves, Advises;
    SummaryMeans(rows, matches, catalog, order, r);
    ProductsSorted(rows, matches, catalog, order, r);
    forall k | 0 <= k < |matches| && matches[k].status == Unmatched
      ensures exists p :: p in r.products && Advises(rows, matches[k], r.mapping, p)
    {
      var p := AdviceFor(rows, matches, catalog, order, r, k);
    }
    forall p | p in r.products
      ensures exists k | 0 <= k < |matches| ::
                matches[k].status == Unmatched && Advises(rows, matches[k], r.mapping, p)
    {
      var k := AdviceOn(rows, matches, catalog, order, r, p);
    }
  }

  lemma ProductsSorted(rows: seq<SourceRow>, matches: seq<MatchRecord>, catalog: map<int, Target>, order: seq<string>,
                       r: Mapping)
    requires IsMapping(rows, matches, catalog, order, r)
    ensures r.summary.sourceOnly == |r.products|
    ensures forall i, j | 0 <= i < j < |r.products| :: Below(r.products[i].id, r.products[j].id)
  {
    hide RowFor, Products, ById, Lists, Categories, CountStatus, Count, Sort;
    BelowIsTotalOrder();
    SortSorted(Products(rows, matches, catalog, matches), IdAtMost);
    assert Sorted(r.products, IdAtMost);
  }
}
