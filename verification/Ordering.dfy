/** Python's `sorted` on strings and integers: the order, a stable sort, and the fact that a
    sorted arrangement is determined by what it arranges. */
module Ordering {

  /** Code-point order on strings. */
  predicate Below(a: string, b: string) {
    || a == []
    || (b != [] && (a[0] < b[0] || (a[0] == b[0] && Below(a[1..], b[1..]))))
  }

  predicate AtMost(a: int, b: int) { a <= b }

  ghost predicate TotalOrder<T(!new)>(le: (T, T) -> bool) {
    && (forall a, b :: le(a, b) || le(b, a))
    && (forall a, b :: le(a, b) && le(b, a) ==> a == b)
    && (forall a, b, c :: le(a, b) && le(b, c) ==> le(a, c))
  }

  lemma {:induction false} BelowTotal(a: string, b: string)
    ensures Below(a, b) || Below(b, a)
    ensures Below(a, b) && Below(b, a) ==> a == b
  {
    if a != [] && b != [] && a[0] == b[0] {
      BelowTotal(a[1..], b[1..]);
      assert a == [a[0]] + a[1..] && b == [b[0]] + b[1..];
    }
  }

  lemma {:induction false} BelowTransitive(a: string, b: string, c: string)
    requires Below(a, b) && Below(b, c)
    ensures Below(a, c)
  {
    if a != [] && a[0] == b[0] == c[0] {
      BelowTransitive(a[1..], b[1..], c[1..]);
    }
  }

  /** The first difference decides; a beginning comes before what it begins. */
  lemma {:induction false} BelowMeans(a: string, b: string)
    ensures Below(a, b) <==>
              a <= b || exists k: nat | k < |a| && k < |b| :: a[..k] == b[..k] && a[k] < b[k]
  {
    if a != [] && b != [] && a[0] == b[0] {
      var x, y := a[1..], b[1..];
      BelowMeans(x, y);
      assert a == [a[0]] + x && b == [b[0]] + y;
      if k: nat :| k < |x| && k < |y| && x[..k] == y[..k] && x[k] < y[k] {
        assert a[..k + 1] == [a[0]] + x[..k] && b[..k + 1] == [b[0]] + y[..k];
        assert a[k + 1] < b[k + 1];
      }
      if k: nat :| k < |a| && k < |b| && a[..k] == b[..k] && a[k] < b[k] {
        assert x[..k - 1] == a[..k][1..] && y[..k - 1] == b[..k][1..];
        assert x[k - 1] < y[k - 1];
      }
    } else if a != [] && b != [] {
      assert a[0] < b[0] ==> a[..0] == b[..0];
      forall k: nat | 0 < k < |a| && k < |b| ensures a[..k] != b[..k] {
        assert a[..k][0] == a[0] && b[..k][0] == b[0];
      }
    }
  }

  lemma BelowIsTotalOrder()
    ensures TotalOrder(Below)
  {
    forall a, b ensures Below(a, b) || Below(b, a) { BelowTotal(a, b); }
    forall a, b | Below(a, b) && Below(b, a) ensures a == b { BelowTotal(a, b); }
    forall a, b, c | Below(a, b) && Below(b, c) ensures Below(a, c) { BelowTransitive(a, b, c); }
  }

  ghost predicate Sorted<T>(s: seq<T>, le: (T, T) -> bool) {
    forall i, j | 0 <= i < j < |s| :: le(s[i], s[j])
  }

  ghost predicate Distinct<T>(s: seq<T>) {
    forall i, j | 0 <= i < j < |s| :: s[i] != s[j]
  }

  /** `r` lists the elements of `s` once each, in order. */
  ghost predicate Lists<T(!new)>(r: seq<T>, s: set<T>, le: (T, T) -> bool) {
    Sorted(r, le) && Distinct(r) && forall x :: x in r <==> x in s
  }

  lemma ListedAt<T(!new)>(r: seq<T>, s: set<T>, le: (T, T) -> bool, x: T) returns (i: nat)
    requires Lists(r, s, le) && x in s
    ensures i < |r| && r[i] == x
  {
    assert x in r;
    i :| 0 <= i < |r| && r[i] == x;
  }

  lemma ListedOnly<T(!new)>(r: seq<T>, s: set<T>, le: (T, T) -> bool, i: nat)
    requires Lists(r, s, le) && i < |r|
    ensures r[i] in s
  {
    assert r[i] in r;
  }

  lemma {:induction false} ListingIsUnique<T(!new)>(a: seq<T>, b: seq<T>, s: set<T>, le: (T, T) -> bool)
    requires TotalOrder(le) && Lists(a, s, le) && Lists(b, s, le)
    ensures a == b
  {
    assert b != [] ==> b[0] in s by { assert b != [] ==> b[0] in b; }
    if a != [] {
      assert a[0] in s && b != [] by { assert a[0] in a; }
      assert b[0] in a by { assert b[0] in s; }
      assert a[0] in b;
      assert le(a[0], b[0]) && le(b[0], a[0]);
      ListingIsUnique(a[1..], b[1..], s - {a[0]}, le);
    }
  }

  /** Puts `x` in front of the elements it is not above: equal elements keep their order. */
  function Insert<T>(x: T, s: seq<T>, le: (T, T) -> bool): seq<T> {
    if s == [] || le(x, s[0]) then [x] + s else [s[0]] + Insert(x, s[1..], le)
  }

  /** A stable sort. */
  function Sort<T>(s: seq<T>, le: (T, T) -> bool): seq<T> {
    if s == [] then [] else Insert(s[0], Sort(s[1..], le), le)
  }

  lemma {:induction false} InsertElements<T>(x: T, s: seq<T>, le: (T, T) -> bool)
    ensures multiset(Insert(x, s, le)) == multiset(s) + multiset{x}
  {
    if s != [] && !le(x, s[0]) {
      InsertElements(x, s[1..], le);
      assert s == [s[0]] + s[1..];
    }
  }

  lemma {:induction false} SortElements<T>(s: seq<T>, le: (T, T) -> bool)
    ensures multiset(Sort(s, le)) == multiset(s) && |Sort(s, le)| == |s|
  {
    if s != [] {
      SortElements(s[1..], le);
      InsertElements(s[0], Sort(s[1..], le), le);
      assert s == [s[0]] + s[1..];
    }
    assert |multiset(Sort(s, le))| == |Sort(s, le)|;
    assert |multiset(s)| == |s|;
  }

  lemma {:induction false} InsertSorted<T(!new)>(x: T, s: seq<T>, le: (T, T) -> bool)
    requires Sorted(s, le)
    requires forall a, b :: le(a, b) || le(b, a)
    requires forall a, b, c :: le(a, b) && le(b, c) ==> le(a, c)
    ensures Sorted(Insert(x, s, le), le)
  {
    if s != [] && !le(x, s[0]) {
      InsertSorted(x, s[1..], le);
      var r := Insert(x, s[1..], le);
      InsertElements(x, s[1..], le);
      forall y | y in r ensures le(s[0], y) {
        assert y in multiset(r);
        assert y == x || y in s[1..];
      }
    }
  }

  /** Needs a total preorder only, so rows may be sorted by a key. */
  lemma {:induction false} SortSorted<T(!new)>(s: seq<T>, le: (T, T) -> bool)
    requires forall a, b :: le(a, b) || le(b, a)
    requires forall a, b, c :: le(a, b) && le(b, c) ==> le(a, c)
    ensures Sorted(Sort(s, le), le)
  {
    if s != [] {
      SortSorted(s[1..], le);
      InsertSorted(s[0], Sort(s[1..], le), le);
    }
  }

  /** `sorted(keys)` for a set of strings. */
  method SortedKeys(s: set<string>) returns (r: seq<string>)
    ensures Lists(r, s, Below)
  {
    var todo, unsorted := s, [];
    while todo != {}
      invariant todo <= s && Distinct(unsorted)
      invariant forall x :: x in unsorted <==> x in s && x !in todo
      decreases todo
    {
      var x :| x in todo;
      todo := todo - {x};
      unsorted := unsorted + [x];
    }
    SortLists(unsorted, s);
    r := Sort(unsorted, Below);
  }

  lemma SortLists(unsorted: seq<string>, s: set<string>)
    requires Distinct(unsorted) && forall x :: x in unsorted <==> x in s
    ensures Lists(Sort(unsorted, Below), s, Below)
  {
    BelowIsTotalOrder();
    SortSorted(unsorted, Below);
    SortElements(unsorted, Below);
    var r := Sort(unsorted, Below);
    DistinctIsMultiset(unsorted);
    DistinctIsMultiset(r);
    forall x ensures x in r <==> x in s {
      assert x in r <==> x in multiset(r);
      assert x in unsorted <==> x in multiset(unsorted);
    }
  }

  /** Every set of strings has its sorted listing. */
  lemma {:induction false} ListingExists(s: set<string>) returns (r: seq<string>)
    ensures Lists(r, s, Below)
  {
    if s == {} {
      r := [];
    } else {
      var x :| x in s;
      var rest := ListingExists(s - {x});
      assert forall y :: y in rest + [x] <==> y in s;
      SortLists(rest + [x], s);
      r := Sort(rest + [x], Below);
    }
  }

  lemma {:induction false} DistinctIsMultiset<T>(s: seq<T>)
    ensures Distinct(s) <==> forall x | x in multiset(s) :: multiset(s)[x] == 1
  {
    if s != [] {
      var t := s[..|s| - 1];
      var x := s[|s| - 1];
      assert s == t + [x];
      DistinctIsMultiset(t);
      assert multiset(s) == multiset(t) + multiset{x};
      if Distinct(s) {
        assert Distinct(t);
        assert x !in t;
        assert x !in multiset(t);
      } else if Distinct(t) {
        assert x in t;
        assert x in multiset(t);
        assert multiset(s)[x] == 2;
      } else {
        var y :| y in multiset(t) && multiset(t)[y] != 1;
        assert multiset(s)[y] != 1;
      }
    }
  }

  /** `len(xs) == len(set(xs))` says that nothing repeats. */
  lemma {:induction false} CardinalityOfElements<T>(s: seq<T>)
    ensures |set x | x in s| <= |s|
    ensures |set x | x in s| == |s| <==> Distinct(s)
  {
    if s != [] {
      var t, x := s[..|s| - 1], s[|s| - 1];
      assert s == t + [x];
      CardinalityOfElements(t);
      assert (set y | y in s) == (set y | y in t) + {x};
      if x in t {
        assert (set y | y in s) == (set y | y in t);
      } else {
        assert |set y | y in s| == |set y | y in t| + 1;
      }
    }
  }

  function Count<T>(s: seq<T>, p: T -> bool): nat {
    if s == [] then 0 else (if p(s[0]) then 1 else 0) + Count(s[1..], p)
  }

  lemma {:induction false} CountConcat<T>(a: seq<T>, b: seq<T>, p: T -> bool)
    ensures Count(a + b, p) == Count(a, p) + Count(b, p)
  {
    if a == [] {
      assert a + b == b;
    } else {
      CountConcat(a[1..], b, p);
      assert (a + b)[1..] == a[1..] + b;
    }
  }

  lemma {:induction false} CountInsert<T>(x: T, s: seq<T>, le: (T, T) -> bool, p: T -> bool)
    ensures Count(Insert(x, s, le), p) == (if p(x) then 1 else 0) + Count(s, p)
  {
    if s == [] || le(x, s[0]) {
      assert ([x] + s)[1..] == s;
    } else {
      CountInsert(x, s[1..], le, p);
      assert ([s[0]] + Insert(x, s[1..], le))[1..] == Insert(x, s[1..], le);
    }
  }

  lemma {:induction false} CountSort<T>(s: seq<T>, le: (T, T) -> bool, p: T -> bool)
    ensures Count(Sort(s, le), p) == Count(s, p)
  {
    if s != [] {
      CountSort(s[1..], le, p);
      CountInsert(s[0], Sort(s[1..], le), le, p);
    }
  }

  function Elements<T>(s: seq<T>): set<T> { set x | x in s }

  lemma NextElement<T>(s: seq<T>, x: T)
    ensures Elements(s + [x]) == Elements(s) + {x}
    ensures Distinct(s + [x]) <==> Distinct(s) && x !in Elements(s)
  {
    var r := s + [x];
    if x in s {
      var i :| 0 <= i < |s| && s[i] == x;
      assert r[i] == r[|s|];
    }
    if Distinct(r) {
      assert forall i | 0 <= i < |s| :: r[i] == s[i];
    }
  }

  lemma DistinctPrefix<T>(s: seq<T>, t: seq<T>)
    requires Distinct(s + t)
    ensures Distinct(s)
  {
    assert forall i | 0 <= i < |s| :: (s + t)[i] == s[i];
  }

  function Without<T>(s: seq<T>, i: nat): seq<T>
    requires i < |s|
  {
    s[..i] + s[i + 1..]
  }

  lemma WithoutElements<T>(s: seq<T>, i: nat)
    requires i < |s|
    ensures multiset(s) == multiset(Without(s, i)) + multiset{s[i]}
  {
    assert s == s[..i] + [s[i]] + s[i + 1..];
  }

  lemma SameSize<T>(a: seq<T>, b: seq<T>)
    requires multiset(a) == multiset(b)
    ensures |a| == |b|
    ensures |a| == 1 ==> a == b
  {
    assert |multiset(a)| == |a| && |multiset(b)| == |b|;
    if |a| == 1 {
      assert a == [a[0]] && b == [b[0]];
      assert a[0] in multiset(b);
    }
  }

  /** The last element of one, found in the other, leaves permutations behind. */
  lemma SameLast<T>(a: seq<T>, b: seq<T>) returns (n: nat, j: nat)
    requires multiset(a) == multiset(b) && a != []
    ensures n == |a| - 1 && j < |b| && a[n] == b[j]
    ensures multiset(Without(a, n)) == multiset(Without(b, j))
  {
    n := |a| - 1;
    assert a[n] in multiset(b);
    j :| 0 <= j < |b| && b[j] == a[n];
    WithoutElements(a, n);
    WithoutElements(b, j);
    hide Without;
    assert multiset(Without(a, n)) == multiset(a) - multiset{a[n]};
    assert multiset(Without(b, j)) == multiset(b) - multiset{a[n]};
  }

  /** What is computed element by element is permuted along with the elements. */
  lemma {:induction false} PermutedImages<A, B>(a: seq<A>, b: seq<A>, x: seq<B>, y: seq<B>)
    requires multiset(a) == multiset(b) && |x| == |a| && |y| == |b|
    requires forall i, j | 0 <= i < |a| && 0 <= j < |b| && a[i] == b[j] :: x[i] == y[j]
    ensures multiset(x) == multiset(y)
    decreases |a|
  {
    SameSize(a, b);
    if a != [] {
      var n, j := SameLast(a, b);
      WithoutElements(x, n);
      WithoutElements(y, j);
      PermutedImages(Without(a, n), Without(b, j), Without(x, n), Without(y, j));
    }
  }

  lemma UnionSize<T>(a: set<T>, b: set<T>)
    ensures |a + b| <= |a| + |b|
  {
    assert a + b == a + (b - a);
    assert |a + (b - a)| == |a| + |b - a|;
    assert b == (b - a) + a * b;
    assert |b| == |b - a| + |a * b|;
  }

  lemma SubsetSize<T>(a: set<T>, b: set<T>)
    requires a <= b
    ensures |a| <= |b|
  {
    assert b == a + (b - a);
    assert |a + (b - a)| == |a| + |b - a|;
  }
}
