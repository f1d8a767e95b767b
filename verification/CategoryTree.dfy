/** The category trees of the supplier feeds: validation of the parent links, and the two
    adapters' walks from a category up to its root. */
module CategoryTree {
  import opened Common
  import opened Ordering

  datatype Category = Category(name: string, parent: Option<string>)

  type Tree = map<string, Category>

  datatype Error = UnknownParent | Cycle | UnknownCategory

  // ------------------------------------------------------------- specification

  predicate HasParent(c: Category) { c.parent.Some? && c.parent.value != "" }

  predicate ParentKnown(tree: Tree, id: string)
    requires id in tree
  {
    HasParent(tree[id]) ==> tree[id].parent.value in tree
  }

  /** The parent link as it stands in the feed; the empty string ends every walk. */
  function Link(tree: Tree, id: string): string {
    if id != "" && id in tree && HasParent(tree[id]) then tree[id].parent.value else ""
  }

  function Up(tree: Tree, id: string, n: nat): string {
    if n == 0 then id else Link(tree, Up(tree, id, n - 1))
  }

  ghost predicate Rooted(tree: Tree, id: string) { exists n: nat :: Up(tree, id, n) == "" }

  /** Every parent is known and every parent chain reaches a root. */
  ghost predicate WellFormed(tree: Tree) {
    forall id | id in tree :: ParentKnown(tree, id) && Rooted(tree, id)
  }

  /** No category is its own proper ancestor. */
  ghost predicate Acyclic(tree: Tree) {
    forall id: string, m: nat | id in tree && id != "" && m > 0 :: Up(tree, id, m) != id
  }

  /** The first `n` categories of the walk from `id`. */
  function Trail(tree: Tree, id: string, n: nat): seq<string> {
    if n == 0 then [] else Trail(tree, id, n - 1) + [Up(tree, id, n - 1)]
  }

  predicate Known(tree: Tree, trail: seq<string>) {
    forall i | 0 <= i < |trail| :: trail[i] != "" && trail[i] in tree
  }

  /** The walk runs over `n` different known categories and cannot go on. */
  ghost predicate StopsAt(tree: Tree, id: string, n: nat) {
    var trail, end := Trail(tree, id, n), Up(tree, id, n);
    Known(tree, trail) && Distinct(trail) && (end == "" || end !in tree || end in trail)
  }

  /** The names along the trail, the root's end first. */
  function Path(tree: Tree, trail: seq<string>): seq<string>
    requires Known(tree, trail)
  {
    if trail == [] then []
    else [tree[trail[|trail| - 1]].name] + Path(tree, trail[..|trail| - 1])
  }

  /** The walk meets known categories only. */
  ghost predicate LinksKnown(tree: Tree, id: string) {
    forall m: nat :: Up(tree, id, m) != "" ==> Up(tree, id, m) in tree
  }

  function Start(id: Option<string>): string { if id.Some? then id.value else "" }

  // -------------------------------------------------------------------- lemmas

  lemma {:induction false} UpAdd(tree: Tree, id: string, a: nat, b: nat)
    ensures Up(tree, id, a + b) == Up(tree, Up(tree, id, a), b)
  {
    if b > 0 { UpAdd(tree, id, a, b - 1); }
  }

  lemma {:induction false} EndStays(tree: Tree, id: string, n: nat, m: nat)
    requires n <= m && Up(tree, id, n) == ""
    ensures Up(tree, id, m) == ""
  {
    if n < m { EndStays(tree, id, n, m - 1); }
  }

  lemma {:induction false} RoundAndRound(tree: Tree, id: string, m: nat, k: nat)
    requires Up(tree, id, m) == id
    ensures Up(tree, id, m * k) == id
  {
    if k > 0 {
      RoundAndRound(tree, id, m, k - 1);
      assert m * k == m * (k - 1) + m;
      UpAdd(tree, id, m * (k - 1), m);
    } else {
      assert m * k == 0;
    }
  }

  /** A category met twice on a walk means that the walk never ends. */
  lemma RepeatMeansNoRoot(tree: Tree, id: string, a: nat, b: nat)
    requires a < b && Up(tree, id, a) == Up(tree, id, b) != ""
    ensures !Rooted(tree, id)
  {
    var x, m := Up(tree, id, a), b - a;
    UpAdd(tree, id, a, m);
    forall n: nat ensures Up(tree, id, n) != "" {
      if Up(tree, id, n) == "" {
        RoundAndRound(tree, x, m, n);
        UpAdd(tree, id, a, m * n);
        assert m * n >= n;
        EndStays(tree, id, n, a + m * n);
      }
    }
  }

  lemma {:induction false} TrailAt(tree: Tree, id: string, n: nat)
    ensures |Trail(tree, id, n)| == n
    ensures forall m: nat | m < n :: Trail(tree, id, n)[m] == Up(tree, id, m)
  {
    if n > 0 { TrailAt(tree, id, n - 1); }
  }

  /** A trail over different categories is no longer than the tree is big. */
  lemma TrailFits(tree: Tree, trail: seq<string>)
    requires Known(tree, trail) && Distinct(trail)
    ensures |trail| <= |tree|
  {
    CardinalityOfElements(trail);
    SubsetSize((set x | x in trail), tree.Keys);
  }

  lemma RepeatInTrail(tree: Tree, id: string, n: nat)
    requires Up(tree, id, n) != "" && Up(tree, id, n) in Trail(tree, id, n)
    ensures !Rooted(tree, id)
  {
    TrailAt(tree, id, n);
    var m :| 0 <= m < n && Trail(tree, id, n)[m] == Up(tree, id, n);
    RepeatMeansNoRoot(tree, id, m, n);
  }

  lemma StopIsUnique(tree: Tree, id: string, a: nat, b: nat)
    requires StopsAt(tree, id, a) && StopsAt(tree, id, b)
    ensures a == b
  {
    TrailAt(tree, id, a);
    TrailAt(tree, id, b);
    hide Up, Trail;
  }

  /** `seen` holds the categories of the trail, and one more fits. */
  ghost predicate SeenIs(seen: set<string>, trail: seq<string>) {
    forall x :: x in seen <==> x in trail
  }

  lemma SeenNext(seen: set<string>, trail: seq<string>, x: string)
    requires SeenIs(seen, trail) && x !in seen && Distinct(trail)
    ensures SeenIs(seen + {x}, trail + [x]) && Distinct(trail + [x])
  {}

  // ------------------------------------------------------------------ algorithms

  /** The inner loop of `_validate_categories`; each turn uses up one category not seen before. */
  method ReachesRoot(tree: Tree, id: string) returns (ok: bool)
    requires id in tree
    ensures ok <==> Rooted(tree, id)
  {
    var seen: set<string> := {};
    var current := id;
    ghost var n: nat := 0;
    assert Up(tree, id, 0) == id;
    while current != ""
      invariant current == "" || current == Up(tree, id, n)
      invariant current == "" ==> Rooted(tree, id)
      invariant current == "" || current in tree
      invariant SeenIs(seen, Trail(tree, id, n)) && Distinct(Trail(tree, id, n)) && seen <= tree.Keys
      decreases tree.Keys - seen
    {
      if current in seen {
        RepeatInTrail(tree, id, n);
        return false;
      }
      SeenNext(seen, Trail(tree, id, n), current);
      seen := seen + {current};
      n := n + 1;
      var parent := if HasParent(tree[current]) then tree[current].parent.value else "";
      assert parent == Up(tree, id, n);
      current := if parent in tree then parent else "";
      if current == "" {
        assert Up(tree, id, n + 1) == "";
      }
      hide SeenIs, Distinct;
    }
    return true;
  }

  /** `_validate_categories`: accepts exactly the well-formed trees. */
  method ValidateCategories(tree: Tree) returns (r: Result<(), Error>)
    ensures r.Ok? <==> WellFormed(tree)
    ensures r == Err(UnknownParent) ==> exists id | id in tree :: !ParentKnown(tree, id)
    ensures r == Err(Cycle) ==> exists id | id in tree :: !Rooted(tree, id)
  {
    var todo := tree.Keys;
    while todo != {}
      invariant todo <= tree.Keys
      invariant forall id | id in tree && id !in todo :: ParentKnown(tree, id) && Rooted(tree, id)
      decreases todo
    {
      var id :| id in todo;
      if !ParentKnown(tree, id) { return Err(UnknownParent); }
      var ok := ReachesRoot(tree, id);
      if !ok { return Err(Cycle); }
      todo := todo - {id};
      hide Rooted;
    }
    return Ok(());
  }

  /** The reversal that ends both walks. */
  function Reverse(s: seq<string>): seq<string> {
    if s == [] then [] else [s[|s| - 1]] + Reverse(s[..|s| - 1])
  }

  lemma PathPush(tree: Tree, trail: seq<string>, names: seq<string>, id: string)
    requires Known(tree, trail) && Reverse(names) == Path(tree, trail) && id != "" && id in tree
    ensures Known(tree, trail + [id]) && Reverse(names + [tree[id].name]) == Path(tree, trail + [id])
  {
    assert (names + [tree[id].name])[..|names|] == names;
    assert (trail + [id])[..|trail|] == trail;
  }

  /** Electrozone's `_category_path`: stops silently where the walk cannot go on. */
  method CategoryPath(tree: Tree, id: Option<string>) returns (path: seq<string>)
    ensures IsPath(tree, Start(id), path)
  {
    var start := Start(id);
    var names: seq<string>, seen: set<string>, current := [], {}, start;
    ghost var n: nat := 0;
    while current != "" && current in tree && current !in seen
      invariant current == Up(tree, start, n)
      invariant SeenIs(seen, Trail(tree, start, n)) && Distinct(Trail(tree, start, n)) && seen <= tree.Keys
      invariant Known(tree, Trail(tree, start, n)) && Reverse(names) == Path(tree, Trail(tree, start, n))
      decreases tree.Keys - seen
    {
      SeenNext(seen, Trail(tree, start, n), current);
      PathPush(tree, Trail(tree, start, n), names, current);
      seen := seen + {current};
      names := names + [tree[current].name];
      current := Start(tree[current].parent);
      n := n + 1;
      hide SeenIs, Distinct, Known, Reverse, Path;
    }
    assert StopsAt(tree, start, n);
    return Reverse(names);
  }

  /** The legacy adapter's `_category_path`: raises where the walk cannot go on. */
  method LegacyCategoryPath(tree: Tree, id: Option<string>) returns (r: Result<seq<string>, Error>)
    ensures r.Ok? <==> Rooted(tree, Start(id)) && LinksKnown(tree, Start(id))
    ensures r.Ok? ==> IsPath(tree, Start(id), r.value)
    ensures r.Ok? ==> exists n: nat :: StopsAt(tree, Start(id), n) && Up(tree, Start(id), n) == ""
                                       && r.value == Path(tree, Trail(tree, Start(id), n))
    ensures r == Err(Cycle) ==> !Rooted(tree, Start(id))
    ensures r == Err(UnknownCategory) ==> !LinksKnown(tree, Start(id))
  {
    var start := Start(id);
    var names: seq<string>, seen: set<string>, current := [], {}, start;
    ghost var n: nat := 0;
    while current != ""
      invariant current == Up(tree, start, n)
      invariant SeenIs(seen, Trail(tree, start, n)) && Distinct(Trail(tree, start, n)) && seen <= tree.Keys
      invariant Known(tree, Trail(tree, start, n)) && Reverse(names) == Path(tree, Trail(tree, start, n))
      decreases tree.Keys - seen
    {
      if current in seen {
        RepeatInTrail(tree, start, n);
        return Err(Cycle);
      }
      if current !in tree { return Err(UnknownCategory); }
      SeenNext(seen, Trail(tree, start, n), current);
      PathPush(tree, Trail(tree, start, n), names, current);
      seen := seen + {current};
      names := names + [tree[current].name];
      current := Start(tree[current].parent);
      n := n + 1;
      hide SeenIs, Distinct, Known, Reverse, Path;
    }
    FinishedWalk(tree, start, n);
    return Ok(Reverse(names));
  }

  lemma FinishedWalk(tree: Tree, start: string, n: nat)
    requires Up(tree, start, n) == "" && Known(tree, Trail(tree, start, n)) && Distinct(Trail(tree, start, n))
    ensures StopsAt(tree, start, n) && Rooted(tree, start) && LinksKnown(tree, start)
  {
    TrailAt(tree, start, n);
    forall m: nat | Up(tree, start, m) != "" ensures Up(tree, start, m) in tree {
      if n <= m {
        EndStays(tree, start, n, m);
      } else {
        assert Trail(tree, start, n)[m] == Up(tree, start, m);
      }
    }
    hide Up, Trail, Distinct;
  }

  // --------------------------------------------------------------- main theorems

  /** A tree with known parents is well formed exactly when no category is its own ancestor. */
  lemma WellFormedMeansAcyclic(tree: Tree)
    requires forall id | id in tree :: ParentKnown(tree, id)
    ensures WellFormed(tree) <==> Acyclic(tree)
  {
    if WellFormed(tree) {
      forall id: string, m: nat | id in tree && id != "" && m > 0 ensures Up(tree, id, m) != id {
        if Up(tree, id, m) == id {
          assert Up(tree, id, 0) == id;
          RepeatMeansNoRoot(tree, id, 0, m);
        }
      }
    }
    if Acyclic(tree) {
      forall id | id in tree ensures Rooted(tree, id) {
        AcyclicReachesRoot(tree, id);
      }
    }
    hide Up, Rooted;
  }

  lemma AcyclicReachesRoot(tree: Tree, id: string)
    requires Acyclic(tree) && id in tree && forall x | x in tree :: ParentKnown(tree, x)
    ensures Rooted(tree, id)
  {
    var n := |tree| + 1;
    TrailAt(tree, id, n);
    if forall m: nat | m < n :: Up(tree, id, m) != "" {
      var trail := Trail(tree, id, n);
      forall m | 0 <= m < n ensures trail[m] != "" && trail[m] in tree { StaysKnown(tree, id, m); }
      forall i, j | 0 <= i < j < n ensures trail[i] != trail[j] { UpAdd(tree, id, i, j - i); }
      TrailFits(tree, trail);
    }
    hide Up, Trail;
  }

  lemma {:induction false} StaysKnown(tree: Tree, id: string, m: nat)
    requires (id in tree || id == "") && forall x | x in tree :: ParentKnown(tree, x)
    ensures Up(tree, id, m) == "" || Up(tree, id, m) in tree
  {
    if m > 0 { StaysKnown(tree, id, m - 1); }
  }

  /** In an accepted tree no walk stops early: the path is the full chain from the root down to
      the category itself, over at most as many names as there are categories, and the legacy
      adapter's walk accepts it too. */
  lemma AcceptedPathsAreComplete(tree: Tree, id: string, n: nat)
    requires WellFormed(tree) && (id == "" || id in tree) && StopsAt(tree, id, n)
    ensures Up(tree, id, n) == ""
    ensures Rooted(tree, id) && LinksKnown(tree, id)
    ensures |Path(tree, Trail(tree, id, n))| == n <= |tree|
    ensures id != "" ==> n > 0 && Path(tree, Trail(tree, id, n))[n - 1] == tree[id].name
    ensures n > 0 ==> !HasParent(tree[Up(tree, id, n - 1)])
  {
    TrailAt(tree, id, n);
    StaysKnown(tree, id, n);
    assert Up(tree, id, 0) == id;
    if Up(tree, id, n) != "" {
      RepeatInTrail(tree, id, n);
      assert false;
    }
    FinishedWalk(tree, id, n);
    TrailFits(tree, Trail(tree, id, n));
    PathEnds(tree, Trail(tree, id, n));
    if n > 0 {
      assert Trail(tree, id, n)[n - 1] == Up(tree, id, n - 1);
      assert Link(tree, Up(tree, id, n - 1)) == "";
    }
    hide Path, Rooted, Trail, Distinct;
  }

  lemma {:induction false} PathEnds(tree: Tree, trail: seq<string>)
    requires Known(tree, trail)
    ensures |Path(tree, trail)| == |trail|
    ensures trail != [] ==> Path(tree, trail)[|trail| - 1] == tree[trail[0]].name
  {
    if |trail| > 1 { PathEnds(tree, trail[..|trail| - 1]); }
  }

  /** The silent walk reaches the end of the chain exactly when the legacy walk accepts. */
  lemma SilentWalkIsCompleteWhenLegacyAccepts(tree: Tree, id: string, n: nat)
    requires StopsAt(tree, id, n)
    ensures Up(tree, id, n) == "" <==> Rooted(tree, id) && LinksKnown(tree, id)
  {
    if Up(tree, id, n) == "" {
      FinishedWalk(tree, id, n);
    } else if Up(tree, id, n) in tree {
      RepeatInTrail(tree, id, n);
    }
    hide Rooted, Up, Trail;
  }

  /** What the two walkers promise to return. */
  ghost predicate IsPath(tree: Tree, start: string, path: seq<string>) {
    exists n: nat :: StopsAt(tree, start, n) && path == Path(tree, Trail(tree, start, n))
  }

  /** Where both adapters return a path, it is the same. */
  lemma WalkersAgree(tree: Tree, start: string, a: seq<string>, b: seq<string>)
    requires IsPath(tree, start, a) && IsPath(tree, start, b)
    ensures a == b
  {
    hide Path, Trail;
    var m: nat :| StopsAt(tree, start, m) && a == Path(tree, Trail(tree, start, m));
    var n: nat :| StopsAt(tree, start, n) && b == Path(tree, Trail(tree, start, n));
    StopIsUnique(tree, start, m, n);
  }
}
