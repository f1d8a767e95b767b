/** What the category mapping conserves, what its rows mean, and what of it survives a change of
    order. */
module CategoryLaws {
  import opened Common
  import opened Ordering
  import opened Catalogue
  import opened CategoryMapping

  // ------------------------------------------------------------ what a counter holds

  /** The count a counter holds for a target. */
  function Tally(counter: Counter, t: Target): nat {
    if counter == [] then 0 else if counter[0].0 == t then counter[0].1 else Tally(counter[1..], t)
  }

  /** Every target has one entry, with a positive count. */
  predicate DistinctTargets(counter: Counter) {
    counter == [] || (counter[0].1 > 0 && Tally(counter[1..], counter[0].0) == 0 && DistinctTargets(counter[1..]))
  }

  lemma {:induction false} AddOne(counter: Counter, t: Target)
    requires DistinctTargets(counter)
    ensures DistinctTargets(Add(counter, t)) && Total(Add(counter, t)) == Total(counter) + 1
    ensures forall u :: Tally(Add(counter, t), u) == Tally(counter, u) + if u == t then 1 else 0
  {
    if counter != [] && counter[0].0 != t {
      AddOne(counter[1..], t);
      assert Add(counter, t)[1..] == Add(counter[1..], t);
    } else if counter != [] {
      assert Add(counter, t)[1..] == counter[1..];
    }
  }

  /** The counter of a category counts its evidence, target by target. */
  lemma {:induction false} CounterCounts(evidence: seq<(string, Target)>, c: string)
    ensures DistinctTargets(CounterOf(evidence, c))
    ensures forall t :: Tally(CounterOf(evidence, c), t) == multiset(evidence)[(c, t)]
    ensures Total(CounterOf(evidence, c)) == multiset(Learners(evidence))[c]
  {
    if evidence != [] {
      hide Add, Total, Tally, DistinctTargets;
      var front, last := evidence[..|evidence| - 1], evidence[|evidence| - 1];
      CounterCounts(front, c);
      AddOne(CounterOf(front, c), last.1);
      assert evidence == front + [last];
      EvidenceGrows(front, last, c);
    }
  }

  lemma EvidenceGrows(e: seq<(string, Target)>, x: (string, Target), c: string)
    ensures forall t :: multiset(e + [x])[(c, t)] == multiset(e)[(c, t)] + if x == (c, t) then 1 else 0
    ensures multiset(Learners(e + [x]))[c] == multiset(Learners(e))[c] + if x.0 == c then 1 else 0
  {
    assert (e + [x])[..|e|] == e;
  }

  lemma {:induction false} EntryMeans(counter: Counter, t: Target, n: nat)
    requires DistinctTargets(counter)
    ensures (t, n) in counter <==> n > 0 && Tally(counter, t) == n
  {
    if counter != [] {
      EntryMeans(counter[1..], t, n);
      assert counter == [counter[0]] + counter[1..];
    }
  }

  lemma {:induction false} EntriesDiffer(counter: Counter)
    requires DistinctTargets(counter)
    ensures Distinct(counter)
  {
    if counter != [] {
      EntriesDiffer(counter[1..]);
      EntryMeans(counter[1..], counter[0].0, counter[0].1);
      assert forall i | 1 <= i < |counter| :: counter[i] == counter[1..][i - 1];
    }
  }

  lemma {:induction false} TwoTargets(counter: Counter, t: Target, u: Target)
    requires t != u
    ensures Tally(counter, t) <= Total(counter) && Tally(counter, t) + Tally(counter, u) <= Total(counter)
  {
    if counter != [] { TwoTargets(counter[1..], t, u); }
  }

  lemma SecondTarget(counter: Counter) returns (u: Target)
    requires DistinctTargets(counter) && |counter| > 1
    ensures u != counter[0].0 && Tally(counter, u) > 0
  {
    u := counter[1].0;
    assert counter[1..][0] == counter[1];
    assert Tally(counter[1..], u) == counter[1].1;
  }

  lemma OnlyTarget(counter: Counter, t: Target)
    requires DistinctTargets(counter) && forall u | u != t :: Tally(counter, u) == 0
    ensures Total(counter) == Tally(counter, t)
  {
    if counter != [] {
      assert Tally(counter, counter[0].0) > 0;
      assert counter[0].0 == t;
      if |counter| > 1 {
        var u := SecondTarget(counter);
        assert false;
      }
    }
  }

  lemma NoEvidence(counter: Counter)
    requires DistinctTargets(counter)
    ensures Total(counter) == 0 <==> counter == []
  {}

  lemma RankedMeans(counter: Counter)
    requires DistinctTargets(counter)
    ensures multiset(Ranked(counter)) == multiset(counter) && |Ranked(counter)| == |counter|
    ensures Sorted(Ranked(counter), AtLeastAsCommon) && Distinct(Ranked(counter))
    ensures forall t, n :: (t, n) in Ranked(counter) <==> n > 0 && Tally(counter, t) == n
  {
    SortElements(counter, AtLeastAsCommon);
    SortSorted(counter, AtLeastAsCommon);
    EntriesDiffer(counter);
    DistinctIsMultiset(counter);
    DistinctIsMultiset(Ranked(counter));
    forall t, n: nat ensures (t, n) in Ranked(counter) <==> n > 0 && Tally(counter, t) == n {
      EntryMeans(counter, t, n);
      assert (t, n) in Ranked(counter) <==> (t, n) in multiset(Ranked(counter));
      assert (t, n) in counter <==> (t, n) in multiset(counter);
    }
  }

  // ------------------------------------------------------------ what a row means

  /** A row, read off the evidence: `Weight` is how often the category went to a target. */
  function Weight(evidence: seq<(string, Target)>, c: string, t: Target): nat { multiset(evidence)[(c, t)] }

  ghost predicate RowReads(row: MappingRow, evidence: seq<(string, Target)>, c: string) {
    && row.support == multiset(Learners(evidence))[c]
    && Distinct(row.alternatives) && Sorted(row.alternatives, AtLeastAsCommon)
    && (forall t, n :: (t, n) in row.alternatives <==> n > 0 && Weight(evidence, c, t) == n)
    && (row.support == 0 ==> row.suggested == ("", "") && row.dominant == 0 && row.alternatives == [])
    && (row.support > 0 ==> row.dominant > 0 && Weight(evidence, c, row.suggested) == row.dominant)
    && (forall t :: Weight(evidence, c, t) <= row.dominant)
    && (forall t | t != row.suggested :: Weight(evidence, c, t) + row.dominant <= row.support)
    && (row.status == StrongCandidate <==>
          row.support >= 3 && forall t | t != row.suggested :: Weight(evidence, c, t) == 0)
    && (Candidate(row.status) <==>
          || (row.support >= 3 && row.dominant == row.support)
          || (row.support >= 2 && 5 * row.dominant >= 4 * row.support))
    && (row.status == Unmapped <==> row.support == 0)
  }

  lemma TopIsCommonest(counter: Counter, ranked: Counter)
    requires DistinctTargets(counter) && ranked == Ranked(counter) && ranked != []
    ensures Tally(counter, ranked[0].0) == ranked[0].1 > 0
    ensures forall t :: Tally(counter, t) <= ranked[0].1
    ensures forall t | t != ranked[0].0 :: Tally(counter, t) + ranked[0].1 <= Total(counter)
    ensures ranked[0].1 == Total(counter) <==> forall t | t != ranked[0].0 :: Tally(counter, t) == 0
  {
    RankedMeans(counter);
    hide DistinctTargets, Ranked, Sort, Distinct, Total;
    assert ranked[0] == (ranked[0].0, ranked[0].1) && ranked[0] in ranked;
    forall t ensures Tally(counter, t) <= ranked[0].1 {
      if Tally(counter, t) > 0 {
        assert (t, Tally(counter, t)) in ranked;
        var k :| 0 <= k < |ranked| && ranked[k] == (t, Tally(counter, t));
      }
    }
    forall t | t != ranked[0].0 ensures Tally(counter, t) + ranked[0].1 <= Total(counter) {
      TwoTargets(counter, t, ranked[0].0);
    }
    if t :| t != ranked[0].0 && Tally(counter, t) != 0 {
      TwoTargets(counter, t, ranked[0].0);
      assert ranked[0].1 < Total(counter);
      assert !forall u | u != ranked[0].0 :: Tally(counter, u) == 0;
    } else {
      OnlyTarget(counter, ranked[0].0);
    }
  }

  lemma WeightIsTally(evidence: seq<(string, Target)>, c: string)
    ensures DistinctTargets(CounterOf(evidence, c))
    ensures Total(CounterOf(evidence, c)) == multiset(Learners(evidence))[c]
    ensures forall t :: Weight(evidence, c, t) == Tally(CounterOf(evidence, c), t)
  {
    CounterCounts(evidence, c);
  }

  lemma MadeRow(c: string, total: nat, sourceOnly: nat, counter: Counter)
    requires DistinctTargets(counter)
    ensures var row := MakeRow(c, total, sourceOnly, counter);
            && row.support == Total(counter) && row.alternatives == Ranked(counter)
            && (counter == [] ==>
                  row.suggested == ("", "") && row.dominant == 0 && row.support == 0 && row.alternatives == [])
            && (counter != [] ==> row.support > 0 && Ranked(counter) != []
                                  && row.suggested == Ranked(counter)[0].0 && row.dominant == Ranked(counter)[0].1)
            && row.status == StatusOf(row.support, row.dominant)
  {
    RankedMeans(counter);
    NoEvidence(counter);
  }

  lemma CounterRowMeans(evidence: seq<(string, Target)>, c: string, total: nat, sourceOnly: nat)
    ensures RowReads(MakeRow(c, total, sourceOnly, CounterOf(evidence, c)), evidence, c)
  {
    hide Total, DistinctTargets, CounterOf, Learners, Ranked, Sort, Tally, Distinct, Sorted, Weight, AtLeastAsCommon,
         MakeRow;
    var counter := CounterOf(evidence, c);
    WeightIsTally(evidence, c);
    RankedMeans(counter);
    MadeRow(c, total, sourceOnly, counter);
    if counter == [] {
      EmptyTally();
    } else {
      TopIsCommonest(counter, Ranked(counter));
    }
  }

  lemma EmptyTally()
    ensures forall t :: Tally([], t) == 0
  {}

  /** Each row of the result means what its evidence says. */
  lemma RowsMean(rows: seq<SourceRow>, matches: seq<MatchRecord>, catalog: map<int, Target>,
                 order: seq<string>, r: Mapping, i: nat)
    requires IsMapping(rows, matches, catalog, order, r) && i < |order|
    ensures RowReads(r.mapping[i], Evidence(ById(rows), matches, catalog), order[i])
  {
    CounterRowMeans(Evidence(ById(rows), matches, catalog), order[i],
                    multiset(Categories(rows))[order[i]], multiset(SourceOnly(ById(rows), matches))[order[i]]);
    hide RowReads, Evidence, MakeRow;
  }

  // ------------------------------------------------------------- conservation

  /** A column of the mapping, added up. */
  function Sum(mapping: seq<MappingRow>, column: MappingRow -> nat): nat {
    if mapping == [] then 0 else Sum(mapping[..|mapping| - 1], column) + column(mapping[|mapping| - 1])
  }

  function SourceTotal(r: MappingRow): nat { r.total }
  function ExactSupport(r: MappingRow): nat { r.support }
  function SourceOnlyProducts(r: MappingRow): nat { r.sourceOnly }
  function CandidateProducts(r: MappingRow): nat { if Candidate(r.status) then r.sourceOnly else 0 }

  predicate IsUnmatched(m: MatchRecord) { m.status == Unmatched }

  /** How often the listed strings occur. */
  function Occurrences(order: seq<string>, m: multiset<string>): nat {
    if order == [] then 0 else Occurrences(order[..|order| - 1], m) + m[order[|order| - 1]]
  }

  lemma {:induction false} OneMore(order: seq<string>, m: multiset<string>, x: string)
    requires Distinct(order)
    ensures Occurrences(order, m + multiset{x}) == Occurrences(order, m) + if x in order then 1 else 0
  {
    if order != [] {
      OneMore(order[..|order| - 1], m, x);
      assert order == order[..|order| - 1] + [order[|order| - 1]];
    }
  }

  lemma {:induction false} OccurrencesAddUp(order: seq<string>, s: seq<string>)
    requires Distinct(order) && forall x | x in s :: x in order
    ensures Occurrences(order, multiset(s)) == |s|
  {
    if s == [] {
      NoOccurrences(order);
    } else {
      var front, last := s[..|s| - 1], s[|s| - 1];
      OccurrencesAddUp(order, front);
      OneMore(order, multiset(front), last);
      assert s == front + [last];
      assert last in s && multiset(s) == multiset(front) + multiset{last};
    }
  }

  lemma {:induction false} NoOccurrences(order: seq<string>)
    ensures Occurrences(order, multiset{}) == 0
  {
    if order != [] { NoOccurrences(order[..|order| - 1]); }
  }

  lemma {:induction false} ColumnAddsUp(order: seq<string>, mapping: seq<MappingRow>, column: MappingRow -> nat,
                                        m: multiset<string>)
    requires |mapping| == |order| && forall i | 0 <= i < |order| :: column(mapping[i]) == m[order[i]]
    ensures Sum(mapping, column) == Occurrences(order, m)
  {
    if order != [] { ColumnAddsUp(order[..|order| - 1], mapping[..|order| - 1], column, m); }
  }

  /** The categories of the unmatched items that a candidate row stands for. */
  function WithCandidate(rows: seq<SourceRow>, matches: seq<MatchRecord>, catalog: map<int, Target>,
                         s: seq<string>): seq<string> {
    if s == [] then []
    else
      WithCandidate(rows, matches, catalog, s[..|s| - 1])
      + (if Candidate(RowFor(rows, matches, catalog, s[|s| - 1]).status) then [s[|s| - 1]] else [])
  }

  lemma {:induction false} WithCandidateCounts(rows: seq<SourceRow>, matches: seq<MatchRecord>,
                                               catalog: map<int, Target>, s: seq<string>)
    ensures forall c :: multiset(WithCandidate(rows, matches, catalog, s))[c]
                        == if Candidate(RowFor(rows, matches, catalog, c).status) then multiset(s)[c] else 0
    ensures forall c | c in WithCandidate(rows, matches, catalog, s) :: c in s
  {
    hide RowFor;
    if s != [] {
      WithCandidateCounts(rows, matches, catalog, s[..|s| - 1]);
      assert s == s[..|s| - 1] + [s[|s| - 1]];
    }
  }

  lemma CountOne<T>(s: seq<T>, x: T, p: T -> bool)
    ensures Count(s + [x], p) == Count(s, p) + if p(x) then 1 else 0
  {
    CountConcat(s, [x], p);
  }

  lemma OneMoreCandidate(rows: seq<SourceRow>, matches: seq<MatchRecord>, catalog: map<int, Target>, s: seq<string>,
                         c: string)
    ensures |WithCandidate(rows, matches, catalog, s + [c])|
            == |WithCandidate(rows, matches, catalog, s)|
               + if Candidate(RowFor(rows, matches, catalog, c).status) then 1 else 0
  {
    hide RowFor;
    assert (s + [c])[..|s|] == s;
  }

  lemma ProductIsReviewOnly(rows: seq<SourceRow>, matches: seq<MatchRecord>, catalog: map<int, Target>, m: MatchRecord)
    ensures IsReviewOnly(ProductFor(rows, matches, catalog, m))
            <==> Candidate(RowFor(rows, matches, catalog, CategoryOf(ById(rows), m)).status)
  {
    hide RowFor;
  }

  /** One product row per unmatched record; it is for review exactly if its category has a candidate. */
  lemma {:induction false} ProductsCount(rows: seq<SourceRow>, matches: seq<MatchRecord>, catalog: map<int, Target>,
                                         some: seq<MatchRecord>)
    ensures |Products(rows, matches, catalog, some)| == Count(some, IsUnmatched) == |SourceOnly(ById(rows), some)|
    ensures Count(Products(rows, matches, catalog, some), IsReviewOnly)
            == |WithCandidate(rows, matches, catalog, SourceOnly(ById(rows), some))|
  {
    hide RowFor, ById, ProductFor, CategoryOf, WithCandidate, Count, IsReviewOnly;
    if some == [] {
      NoProducts(rows, matches, catalog);
    } else {
      var front, last := some[..|some| - 1], some[|some| - 1];
      ProductsCount(rows, matches, catalog, front);
      assert some == front + [last];
      CountOne(front, last, IsUnmatched);
      CountOne(Products(rows, matches, catalog, front), ProductFor(rows, matches, catalog, last), IsReviewOnly);
      OneMoreCandidate(rows, matches, catalog, SourceOnly(ById(rows), front), CategoryOf(ById(rows), last));
      ProductIsReviewOnly(rows, matches, catalog, last);
      if last.status == Unmatched {
        assert Products(rows, matches, catalog, some)
               == Products(rows, matches, catalog, front) + [ProductFor(rows, matches, catalog, last)];
        assert SourceOnly(ById(rows), some) == SourceOnly(ById(rows), front) + [CategoryOf(ById(rows), last)];
      } else {
        assert Products(rows, matches, catalog, some) == Products(rows, matches, catalog, front);
        assert SourceOnly(ById(rows), some) == SourceOnly(ById(rows), front);
      }
    }
  }

  lemma NoProducts(rows: seq<SourceRow>, matches: seq<MatchRecord>, catalog: map<int, Target>)
    ensures |WithCandidate(rows, matches, catalog, [])| == 0
    ensures Count<MatchRecord>([], IsUnmatched) == 0 && Count<ProductRow>([], IsReviewOnly) == 0
  {}

  lemma {:induction false} EvidenceCounts(byId: map<string, SourceRow>, matches: seq<MatchRecord>,
                                          catalog: map<int, Target>)
    ensures |Evidence(byId, matches, catalog)| == Count(matches, Teaches)
  {
    if matches != [] {
      var front, last := matches[..|matches| - 1], matches[|matches| - 1];
      EvidenceCounts(byId, front, catalog);
      assert matches == front + [last];
      CountConcat(front, [last], Teaches);
    }
  }

  lemma {:induction false} LearnersLength(e: seq<(string, Target)>)
    ensures |Learners(e)| == |e| && forall i | 0 <= i < |e| :: Learners(e)[i] == e[i].0
  {
    if e != [] { LearnersLength(e[..|e| - 1]); }
  }

  lemma {:induction false} CategoriesLength(rows: seq<SourceRow>)
    ensures |Categories(rows)| == |rows| && forall i | 0 <= i < |rows| :: Categories(rows)[i] == rows[i].category
  {
    if rows != [] { CategoriesLength(rows[..|rows| - 1]); }
  }

  lemma {:induction false} StatusesPartition(mapping: seq<MappingRow>)
    ensures CountStatus(mapping, StrongCandidate) + CountStatus(mapping, ReviewCandidate)
            + CountStatus(mapping, AmbiguousTarget) + CountStatus(mapping, Unmapped) == |mapping|
  {
    if mapping != [] { StatusesPartition(mapping[..|mapping| - 1]); }
  }

  /** Categories of matched items are categories of items. */
  lemma {:induction false} MatchedCategories(rows: seq<SourceRow>, matches: seq<MatchRecord>, catalog: map<int, Target>)
    requires AllResolvable(ById(rows), matches, catalog)
    ensures forall c | c in SourceOnly(ById(rows), matches) :: c in Categories(rows)
    ensures forall c | c in Learners(Evidence(ById(rows), matches, catalog)) :: c in Categories(rows)
  {
    if matches != [] {
      var front, last := matches[..|matches| - 1], matches[|matches| - 1];
      MatchedCategories(rows, front, catalog);
      CategoryIsListed(rows, matches, catalog, last);
      LearnStep(ById(rows), matches, catalog, |matches| - 1);
      assert matches[..|matches|] == matches;
      LastLearner(Evidence(ById(rows), front, catalog), (CategoryOf(ById(rows), last), TargetOf(catalog, last)));
      hide SourceOnly, Evidence, Learners, Categories, ById, CategoryOf;
    }
  }

  lemma LastLearner(e: seq<(string, Target)>, x: (string, Target))
    ensures Learners(e + [x]) == Learners(e) + [x.0]
  {
    assert (e + [x])[..|e|] == e;
  }

  lemma RowColumns(rows: seq<SourceRow>, matches: seq<MatchRecord>, catalog: map<int, Target>, c: string)
    ensures var row := RowFor(rows, matches, catalog, c); var only := SourceOnly(ById(rows), matches);
            && SourceTotal(row) == multiset(Categories(rows))[c]
            && ExactSupport(row) == multiset(Learners(Evidence(ById(rows), matches, catalog)))[c]
            && SourceOnlyProducts(row) == multiset(only)[c]
            && CandidateProducts(row) == multiset(WithCandidate(rows, matches, catalog, only))[c]
  {
    var evidence := Evidence(ById(rows), matches, catalog);
    WithCandidateCounts(rows, matches, catalog, SourceOnly(ById(rows), matches));
    CounterRowMeans(evidence, c, multiset(Categories(rows))[c], multiset(SourceOnly(ById(rows), matches))[c]);
    hide ById, Evidence, SourceOnly, Learners, Categories, WithCandidate, CounterOf, Total, Ranked;
  }

  /** Nothing is lost on the way from items and matches to the rows. */
  lemma Conservation(rows: seq<SourceRow>, matches: seq<MatchRecord>, catalog: map<int, Target>, order: seq<string>,
                     r: Mapping)
    requires AllResolvable(ById(rows), matches, catalog) && IsMapping(rows, matches, catalog, order, r)
    ensures Sum(r.mapping, SourceTotal) == |rows|
    ensures Sum(r.mapping, ExactSupport) == Count(matches, Teaches)
    ensures Sum(r.mapping, SourceOnlyProducts) == Count(matches, IsUnmatched) == |r.products|
    ensures r.summary.categories == |r.mapping|
    ensures r.summary.strong + r.summary.review + r.summary.ambiguous + r.summary.unmapped == |r.mapping|
    ensures r.summary.withCandidate == Sum(r.mapping, CandidateProducts)
  {
    var byId := ById(rows);
    var evidence, only := Evidence(byId, matches, catalog), SourceOnly(byId, matches);
    var wanted := WithCandidate(rows, matches, catalog, only);
    MatchedCategories(rows, matches, catalog);
    CategoriesLength(rows);
    LearnersLength(evidence);
    EvidenceCounts(byId, matches, catalog);
    ProductsCount(rows, matches, catalog, matches);
    WithCandidateCounts(rows, matches, catalog, only);
    SortElements(Products(rows, matches, catalog, matches), IdAtMost);
    CountSort(Products(rows, matches, catalog, matches), IdAtMost, IsReviewOnly);
    StatusesPartition(r.mapping);
    forall c { RowColumns(rows, matches, catalog, c); }
    hide ById, Evidence, SourceOnly, Learners, Categories, WithCandidate, CountStatus, Count, Products, Sort, Sum,
         Occurrences, RowFor, SourceTotal, ExactSupport, SourceOnlyProducts, CandidateProducts;
    ColumnAddsUp(order, r.mapping, SourceTotal, multiset(Categories(rows)));
    ColumnAddsUp(order, r.mapping, ExactSupport, multiset(Learners(evidence)));
    ColumnAddsUp(order, r.mapping, SourceOnlyProducts, multiset(only));
    ColumnAddsUp(order, r.mapping, CandidateProducts, multiset(wanted));
    OccurrencesAddUp(order, Categories(rows));
    OccurrencesAddUp(order, Learners(evidence));
    OccurrencesAddUp(order, only);
    OccurrencesAddUp(order, wanted);
  }

  // ---------------------------------------------------------- majority stability

  function Ids(rows: seq<SourceRow>): seq<string> { seq(|rows|, i requires 0 <= i < |rows| => rows[i].id) }

  lemma {:induction false} ByIdHolds(rows: seq<SourceRow>)
    requires Distinct(Ids(rows))
    ensures forall i | 0 <= i < |rows| :: rows[i].id in ById(rows) && ById(rows)[rows[i].id] == rows[i]
    ensures forall id | id in ById(rows) :: exists i | 0 <= i < |rows| :: rows[i].id == id
  {
    if rows != [] {
      var n := |rows| - 1;
      assert forall i | 0 <= i < |rows| :: Ids(rows)[i] == rows[i].id;
      assert Ids(rows[..n]) == Ids(rows)[..n];
      ByIdHolds(rows[..n]);
    }
  }

  lemma ByIdOfPermutation(a: seq<SourceRow>, b: seq<SourceRow>)
    requires multiset(a) == multiset(b) && Distinct(Ids(a))
    ensures ById(a) == ById(b)
  {
    IdsOfPermutation(a, b);
    hide Distinct, Ids, ById;
    SameRows(a, b);
    SameRows(b, a);
  }

  lemma IdsOfPermutation(a: seq<SourceRow>, b: seq<SourceRow>)
    requires multiset(a) == multiset(b) && Distinct(Ids(a))
    ensures Distinct(Ids(b))
  {
    SameSize(a, b);
    PermutedImages(a, b, Ids(a), Ids(b));
    hide Distinct, Ids;
    DistinctIsMultiset(Ids(a));
    DistinctIsMultiset(Ids(b));
  }

  lemma CategoriesOfPermutation(a: seq<SourceRow>, b: seq<SourceRow>)
    requires multiset(a) == multiset(b)
    ensures multiset(Categories(a)) == multiset(Categories(b))
    ensures (set c | c in Categories(a)) == set c | c in Categories(b)
  {
    SameSize(a, b);
    CategoriesLength(a);
    CategoriesLength(b);
    hide Categories;
    PermutedImages(a, b, Categories(a), Categories(b));
    forall c ensures c in Categories(a) <==> c in Categories(b) {
      assert c in multiset(Categories(a)) <==> c in multiset(Categories(b));
    }
  }

  lemma SameRows(a: seq<SourceRow>, b: seq<SourceRow>)
    requires multiset(a) == multiset(b) && Distinct(Ids(a)) && Distinct(Ids(b))
    ensures forall id | id in ById(a) :: id in ById(b) && ById(a)[id] == ById(b)[id]
  {
    ByIdHolds(a);
    ByIdHolds(b);
    hide ById, Ids, Distinct;
    forall id | id in ById(a) ensures id in ById(b) && ById(a)[id] == ById(b)[id] {
      var i :| 0 <= i < |a| && a[i].id == id;
      assert a[i] in multiset(b);
      var j :| 0 <= j < |b| && b[j] == a[i];
    }
  }

  lemma {:induction false} EvidenceConcat(byId: map<string, SourceRow>, a: seq<MatchRecord>, b: seq<MatchRecord>,
                                          catalog: map<int, Target>)
    ensures Evidence(byId, a + b, catalog) == Evidence(byId, a, catalog) + Evidence(byId, b, catalog)
    ensures SourceOnly(byId, a + b) == SourceOnly(byId, a) + SourceOnly(byId, b)
  {
    hide CategoryOf, TargetOf;
    if b == [] {
      assert a + b == a;
    } else {
      EvidenceConcat(byId, a, b[..|b| - 1], catalog);
      assert (a + b)[..|a + b| - 1] == a + b[..|b| - 1];
      assert (a + b)[|a + b| - 1] == b[|b| - 1];
    }
  }

  lemma EvidenceWithout(byId: map<string, SourceRow>, m: seq<MatchRecord>, catalog: map<int, Target>, i: nat)
    requires i < |m|
    ensures multiset(Evidence(byId, m, catalog))
            == multiset(Evidence(byId, Without(m, i), catalog)) + multiset(Evidence(byId, [m[i]], catalog))
    ensures multiset(SourceOnly(byId, m)) == multiset(SourceOnly(byId, Without(m, i)))
              + multiset(SourceOnly(byId, [m[i]]))
  {
    hide Evidence, SourceOnly;
    EvidenceConcat(byId, m[..i], m[i + 1..], catalog);
    EvidenceConcat(byId, m[..i], [m[i]], catalog);
    EvidenceConcat(byId, m[..i] + [m[i]], m[i + 1..], catalog);
    assert m == m[..i] + [m[i]] + m[i + 1..];
    MiddleOut(Evidence(byId, m[..i], catalog), Evidence(byId, [m[i]], catalog), Evidence(byId, m[i + 1..], catalog));
    MiddleOut(SourceOnly(byId, m[..i]), SourceOnly(byId, [m[i]]), SourceOnly(byId, m[i + 1..]));
  }

  lemma MiddleOut<T>(a: seq<T>, b: seq<T>, c: seq<T>)
    ensures multiset(a + b + c) == multiset(a + c) + multiset(b)
  {}

  /** The order of the matches is forgotten. */
  lemma {:induction false} EvidenceOfPermutation(byId: map<string, SourceRow>, a: seq<MatchRecord>,
                                                 b: seq<MatchRecord>, catalog: map<int, Target>)
    requires multiset(a) == multiset(b)
    ensures multiset(Evidence(byId, a, catalog)) == multiset(Evidence(byId, b, catalog))
    ensures multiset(SourceOnly(byId, a)) == multiset(SourceOnly(byId, b))
    decreases |a|
  {
    hide Evidence, SourceOnly;
    SameSize(a, b);
    if a == [] {
      assert a == b;
    } else {
      var n, j := SameLast(a, b);
      EvidenceWithout(byId, a, catalog, n);
      EvidenceWithout(byId, b, catalog, j);
      EvidenceOfPermutation(byId, Without(a, n), Without(b, j), catalog);
    }
  }

  /** All of a row but which of the most common targets comes first. */
  predicate Agree(a: MappingRow, b: MappingRow) {
    && a.category == b.category && a.total == b.total && a.sourceOnly == b.sourceOnly
    && a.support == b.support && a.dominant == b.dominant && a.status == b.status
    && multiset(a.alternatives) == multiset(b.alternatives)
  }

  /** No other target is as common as the suggested one. */
  ghost predicate TopIsUnique(row: MappingRow, evidence: seq<(string, Target)>, c: string) {
    row.support == 0 || forall t | t != row.suggested :: Weight(evidence, c, t) < row.dominant
  }

  lemma SameAlternatives(e: seq<(string, Target)>, f: seq<(string, Target)>, c: string, a: MappingRow, b: MappingRow)
    requires RowReads(a, e, c) && RowReads(b, f, c)
    requires forall t :: Weight(e, c, t) == Weight(f, c, t)
    ensures multiset(a.alternatives) == multiset(b.alternatives)
  {
    DistinctIsMultiset(a.alternatives);
    DistinctIsMultiset(b.alternatives);
    hide Distinct, Weight, Sorted, Candidate;
    forall x ensures multiset(a.alternatives)[x] == multiset(b.alternatives)[x] {
      assert x == (x.0, x.1);
      assert x in a.alternatives <==> x in multiset(a.alternatives);
      assert x in b.alternatives <==> x in multiset(b.alternatives);
    }
  }

  lemma SameRow(e: seq<(string, Target)>, f: seq<(string, Target)>, c: string, total: nat, sourceOnly: nat)
    requires multiset(e) == multiset(f)
    ensures var a, b := MakeRow(c, total, sourceOnly, CounterOf(e, c)), MakeRow(c, total, sourceOnly, CounterOf(f, c));
            Agree(a, b) && (TopIsUnique(a, e, c) ==> a.suggested == b.suggested)
  {
    var a, b := MakeRow(c, total, sourceOnly, CounterOf(e, c)), MakeRow(c, total, sourceOnly, CounterOf(f, c));
    CounterRowMeans(e, c, total, sourceOnly);
    CounterRowMeans(f, c, total, sourceOnly);
    LearnersLength(e);
    LearnersLength(f);
    SameSize(e, f);
    PermutedImages(e, f, Learners(e), Learners(f));
    assert a.support == b.support;
    forall t ensures Weight(e, c, t) == Weight(f, c, t) {}
    SameAlternatives(e, f, c, a, b);
    hide CounterOf, Learners, Total, Ranked, Weight;
    assert Weight(e, c, b.suggested) <= a.dominant && Weight(f, c, a.suggested) <= b.dominant;
  }

  /** Neither the order of the items nor that of the matches decides more than which of equally common
      targets comes first. */
  lemma MajorityIsStable(rows: seq<SourceRow>, matches: seq<MatchRecord>, rows': seq<SourceRow>,
                         matches': seq<MatchRecord>,
                         catalog: map<int, Target>, order: seq<string>, r: Mapping, order': seq<string>, r': Mapping)
    requires Distinct(Ids(rows)) && multiset(rows) == multiset(rows') && multiset(matches) == multiset(matches')
    requires IsMapping(rows, matches, catalog, order, r) && IsMapping(rows', matches', catalog, order', r')
    ensures |r.mapping| == |r'.mapping| == |order|
    ensures forall i | 0 <= i < |order| ::
              && Agree(r.mapping[i], r'.mapping[i])
              && (TopIsUnique(r.mapping[i], Evidence(ById(rows), matches, catalog), order[i]) ==>
                    r.mapping[i].suggested == r'.mapping[i].suggested)
  {
    ByIdOfPermutation(rows, rows');
    CategoriesOfPermutation(rows, rows');
    EvidenceOfPermutation(ById(rows), matches, matches', catalog);
    BelowIsTotalOrder();
    hide ById, Categories, Evidence, SourceOnly, Agree, TopIsUnique, MakeRow, Lists, Products, CountStatus, Count,
         Sort, TotalOrder, Distinct;
    ListingIsUnique(order, order', (set c | c in Categories(rows)), Below);
    forall i | 0 <= i < |order|
      ensures Agree(r.mapping[i], r'.mapping[i])
      ensures TopIsUnique(r.mapping[i], Evidence(ById(rows), matches, catalog), order[i]) ==>
                r.mapping[i].suggested == r'.mapping[i].suggested
    {
      var c := order[i];
      SameRow(Evidence(ById(rows), matches, catalog), Evidence(ById(rows), matches', catalog), c,
              multiset(Categories(rows))[c], multiset(SourceOnly(ById(rows), matches))[c]);
    }
  }

  // ------------------------------------------------------------ the product rows

  lemma {:induction false} ProductsAreUnmatched(rows: seq<SourceRow>, matches: seq<MatchRecord>,
                                                catalog: map<int, Target>,
                                                some: seq<MatchRecord>, p: ProductRow)
    ensures p in Products(rows, matches, catalog, some) <==>
              exists m :: m in some && m.status == Unmatched && p == ProductFor(rows, matches, catalog, m)
  {
    hide ProductFor;
    if some != [] {
      var front, last := some[..|some| - 1], some[|some| - 1];
      ProductsAreUnmatched(rows, matches, catalog, front, p);
      assert some == front + [last];
    }
  }

  /** The product rows are sorted by id and are exactly those of the unmatched items; each takes its
      suggestion and mapping status from the mapping row of its category, and its proposal status
      says which of the three kinds that row is. */
  lemma ProductRowsMean(rows: seq<SourceRow>, matches: seq<MatchRecord>, catalog: map<int, Target>,
                        order: seq<string>, r: Mapping)
    requires AllResolvable(ById(rows), matches, catalog) && IsMapping(rows, matches, catalog, order, r)
    ensures Sorted(r.products, IdAtMost)
    ensures forall m | m in matches && m.status == Unmatched :: ProductFor(rows, matches, catalog, m) in r.products
    ensures forall p | p in r.products ::
              && (exists m :: m in matches && IsBehind(rows, m, p))
              && (exists i :: 0 <= i < |r.mapping| && SameAdvice(p, r.mapping[i]))
  {
    BelowIsTotalOrder();
    SortSorted(Products(rows, matches, catalog, matches), IdAtMost);
    SortElements(Products(rows, matches, catalog, matches), IdAtMost);
    var products := Products(rows, matches, catalog, matches);
    forall p ensures p in r.products <==> p in products {
      assert p in r.products <==> p in multiset(r.products);
      assert p in products <==> p in multiset(products);
    }
    hide Products, ById, Sort, Sorted, AllResolvable, CountStatus, Count, Categories;
    forall m | m in matches && m.status == Unmatched ensures ProductFor(rows, matches, catalog, m) in r.products {
      ProductsAreUnmatched(rows, matches, catalog, matches, ProductFor(rows, matches, catalog, m));
    }
    forall p | p in r.products
      ensures exists m :: m in matches && IsBehind(rows, m, p)
      ensures exists i :: 0 <= i < |r.mapping| && SameAdvice(p, r.mapping[i])
    {
      ProductsAreUnmatched(rows, matches, catalog, matches, p);
      var m :| m in matches && m.status == Unmatched && p == ProductFor(rows, matches, catalog, m);
      var c := CategoryOf(ById(rows), m);
      CategoryIsListed(rows, matches, catalog, m);
      var i := ListedAt(order, (set c | c in Categories(rows)), Below, c);
      ProductAdvice(rows, matches, catalog, m);
      assert IsBehind(rows, m, p);
      assert SameAdvice(p, r.mapping[i]) by { hide RowFor, ProductFor, SameAdvice, Lists; }
    }
  }

  predicate IsBehind(rows: seq<SourceRow>, m: MatchRecord, p: ProductRow) {
    m.status == Unmatched && m.id == p.id && CategoryOf(ById(rows), m) == p.category
  }

  predicate SameAdvice(p: ProductRow, row: MappingRow) {
    && p.category == row.category && p.suggested == row.suggested && p.mapping == row.status
    && (p.status == ReviewOnly <==> row.status in {StrongCandidate, ReviewCandidate})
    && (p.status == BlockedAmbiguous <==> row.status == AmbiguousTarget)
    && (p.status == BlockedUnmapped <==> row.status == Unmapped)
  }

  lemma ProductAdvice(rows: seq<SourceRow>, matches: seq<MatchRecord>, catalog: map<int, Target>, m: MatchRecord)
    ensures var p, c := ProductFor(rows, matches, catalog, m), CategoryOf(ById(rows), m);
            p.id == m.id && p.category == c && SameAdvice(p, RowFor(rows, matches, catalog, c))
  {
    RowCategory(rows, matches, catalog, CategoryOf(ById(rows), m));
    hide RowFor;
  }

  // ------------------------------------------------------------------- ties

  /** A strong or reviewable row has no tie at the top. */
  lemma CandidatesAreUnique(rows: seq<SourceRow>, matches: seq<MatchRecord>, catalog: map<int, Target>, c: string)
    ensures var row := RowFor(rows, matches, catalog, c);
            Candidate(row.status) ==> TopIsUnique(row, Evidence(ById(rows), matches, catalog), c)
  {
    CounterRowMeans(Evidence(ById(rows), matches, catalog), c,
                    multiset(Categories(rows))[c], multiset(SourceOnly(ById(rows), matches))[c]);
    hide Evidence, Categories, SourceOnly, ById, CounterOf, Weight, MakeRow;
  }

  lemma {:induction false} FirstStaysFirst(rest: seq<(string, Target)>, c: string, t: Target)
    ensures var counter := CounterOf([(c, t)] + rest, c); counter != [] && counter[0].0 == t
  {
    var all := [(c, t)] + rest;
    if rest == [] {
      assert all == [(c, t)] && all[..0] == [];
    } else {
      FirstStaysFirst(rest[..|rest| - 1], c, t);
      assert all[..|all| - 1] == [(c, t)] + rest[..|rest| - 1];
    }
  }

  /** Of equally common targets, the one seen first is suggested. */
  lemma TieGoesToTheFirst(rest: seq<(string, Target)>, c: string, t: Target, total: nat, sourceOnly: nat)
    requires forall u :: Weight([(c, t)] + rest, c, u) <= Weight([(c, t)] + rest, c, t)
    ensures MakeRow(c, total, sourceOnly, CounterOf([(c, t)] + rest, c)).suggested == t
  {
    var e := [(c, t)] + rest;
    var counter := CounterOf(e, c);
    FirstStaysFirst(rest, c, t);
    WeightIsTally(e, c);
    hide CounterOf, Weight;
    forall x | x in counter ensures AtLeastAsCommon(counter[0], x) {
      EntryMeans(counter, x.0, x.1);
      assert x == (x.0, x.1);
      assert Tally(counter, t) == counter[0].1;
    }
    SortElements(counter[1..], AtLeastAsCommon);
    var tail := Sort(counter[1..], AtLeastAsCommon);
    if tail != [] {
      assert tail[0] in multiset(tail);
      assert tail[0] in counter[1..];
      assert tail[0] in counter;
    }
    assert Ranked(counter)[0] == counter[0];
    hide Tally, DistinctTargets;
  }

  /** The match behind a piece of evidence. */
  lemma {:induction false} EvidenceHasMatch(byId: map<string, SourceRow>, matches: seq<MatchRecord>,
                                            catalog: map<int, Target>,
                                            x: (string, Target)) returns (i: nat)
    requires x in Evidence(byId, matches, catalog)
    ensures i < |matches| && Evidence(byId, [matches[i]], catalog) == [x]
  {
    var n := |matches| - 1;
    hide CategoryOf, TargetOf;
    if x in Evidence(byId, matches[..n], catalog) {
      i := EvidenceHasMatch(byId, matches[..n], catalog, x);
    } else {
      i := n;
      assert [matches[n]][..0] == [];
    }
  }

  /** With a tie, moving one match to the front changes the suggestion. */
  lemma TieIsUnstable(rows: seq<SourceRow>, matches: seq<MatchRecord>, catalog: map<int, Target>, c: string)
      returns (other: seq<MatchRecord>)
    requires !TopIsUnique(RowFor(rows, matches, catalog, c), Evidence(ById(rows), matches, catalog), c)
    ensures multiset(other) == multiset(matches)
    ensures RowFor(rows, other, catalog, c).suggested != RowFor(rows, matches, catalog, c).suggested
  {
    var byId := ById(rows);
    var e, row := Evidence(byId, matches, catalog), RowFor(rows, matches, catalog, c);
    CounterRowMeans(e, c, multiset(Categories(rows))[c], multiset(SourceOnly(byId, matches))[c]);
    var t :| t != row.suggested && Weight(e, c, t) >= row.dominant;
    assert (c, t) in multiset(e);
    hide RowReads, MakeRow, ById, CounterOf, Evidence, SourceOnly;
    var i := EvidenceHasMatch(byId, matches, catalog, (c, t));
    other := [matches[i]] + Without(matches, i);
    WithoutElements(matches, i);
    assert multiset(other) == multiset(matches) by { hide Without; }
    EvidenceConcat(byId, [matches[i]], Without(matches, i), catalog);
    EvidenceOfPermutation(byId, matches, other, catalog);
    var f, rest := Evidence(byId, other, catalog), Evidence(byId, Without(matches, i), catalog);
    assert f == [(c, t)] + rest;
    forall u ensures Weight(f, c, u) <= Weight(f, c, t) { TopWeight(row, e, f, c, t, u); }
    hide Weight;
    TieGoesToTheFirst(rest, c, t, multiset(Categories(rows))[c], multiset(SourceOnly(byId, other))[c]);
  }

  lemma TopWeight(row: MappingRow, e: seq<(string, Target)>, f: seq<(string, Target)>, c: string, t: Target, u: Target)
    requires RowReads(row, e, c) && multiset(e) == multiset(f) && Weight(e, c, t) >= row.dominant
    ensures Weight(f, c, u) <= Weight(f, c, t)
  {
    assert Weight(f, c, u) == Weight(e, c, u) <= row.dominant;
  }

  /** The order of the matches never changes the suggestion for a category if and only if no other
      target is as common as the suggested one. */
  lemma SuggestionIsStableIff(rows: seq<SourceRow>, matches: seq<MatchRecord>, catalog: map<int, Target>, c: string)
    ensures TopIsUnique(RowFor(rows, matches, catalog, c), Evidence(ById(rows), matches, catalog), c)
            <==> forall other: seq<MatchRecord> | multiset(other) == multiset(matches) ::
                   RowFor(rows, other, catalog, c).suggested == RowFor(rows, matches, catalog, c).suggested
  {
    var byId, row := ById(rows), RowFor(rows, matches, catalog, c);
    var total, only := multiset(Categories(rows))[c], multiset(SourceOnly(byId, matches))[c];
    hide ById, Categories, SourceOnly, Evidence, MakeRow, TopIsUnique, Agree;
    if TopIsUnique(row, Evidence(byId, matches, catalog), c) {
      forall other: seq<MatchRecord> | multiset(other) == multiset(matches)
        ensures RowFor(rows, other, catalog, c).suggested == row.suggested
      {
        EvidenceOfPermutation(byId, matches, other, catalog);
        SameRow(Evidence(byId, matches, catalog), Evidence(byId, other, catalog), c, total, only);
      }
    } else {
      var other := TieIsUnstable(rows, matches, catalog, c);
    }
  }
}
