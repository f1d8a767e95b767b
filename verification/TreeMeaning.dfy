/** What the category walks return and which trees are accepted, in terms of parents and names alone. */
module TreeMeaning {
  import opened Common
  import opened Ordering
  import opened CategoryTree

  /** The category has this parent in the feed. */
  predicate IsParent(tree: Tree, id: string, parent: string) {
    id in tree && parent != "" && tree[id].parent == Some(parent)
  }

  predicate IsRoot(tree: Tree, id: string) {
    id in tree && (tree[id].parent.None? || tree[id].parent.value == "")
  }

  /** Known categories, each the parent of the one before, none twice. */
  ghost predicate IsChain(tree: Tree, start: string, ids: seq<string>) {
    && (ids != [] ==> ids[0] == start)
    && (forall k | 0 <= k < |ids| :: ids[k] != "" && ids[k] in tree)
    && (forall j, k | 0 <= j < k < |ids| :: ids[j] != ids[k])
    && forall k | 0 <= k < |ids| - 1 :: IsParent(tree, ids[k], ids[k + 1])
  }

  /** The names along the chain, its last category first. */
  ghost predicate NamesOf(tree: Tree, ids: seq<string>, path: seq<string>) {
    |path| == |ids| && forall k | 0 <= k < |ids| :: ids[k] in tree && path[|ids| - 1 - k] == tree[ids[k]].name
  }

  /** The walk cannot go on: nothing to start from, a root, an unknown parent or one it has met. */
  ghost predicate Ends(tree: Tree, start: string, ids: seq<string>) {
    if ids == [] then start == "" || start !in tree
    else IsRoot(tree, ids[|ids| - 1])
         || exists parent :: IsParent(tree, ids[|ids| - 1], parent) && (parent !in tree || parent in ids)
  }

  lemma TrailLinks(tree: Tree, start: string, n: nat)
    requires Known(tree, Trail(tree, start, n)) && Distinct(Trail(tree, start, n))
    ensures IsChain(tree, start, Trail(tree, start, n)) && |Trail(tree, start, n)| == n
  {
    var ids := Trail(tree, start, n);
    TrailAt(tree, start, n);
    forall k | 0 <= k < n - 1 ensures IsParent(tree, ids[k], ids[k + 1]) {
      assert ids[k] == Up(tree, start, k) && ids[k + 1] == Up(tree, start, k + 1);
    }
  }

  lemma {:induction false} PathNames(tree: Tree, trail: seq<string>)
    requires Known(tree, trail)
    ensures NamesOf(tree, trail, Path(tree, trail))
  {
    if trail != [] {
      var front := trail[..|trail| - 1];
      PathNames(tree, front);
      assert forall k | 0 <= k < |front| :: front[k] == trail[k];
    }
  }

  /** The tolerant walk: the names of a chain of categories from the start, as far as it goes. */
  lemma PathMeans(tree: Tree, start: string, path: seq<string>) returns (ids: seq<string>)
    requires IsPath(tree, start, path)
    ensures IsChain(tree, start, ids) && NamesOf(tree, ids, path) && Ends(tree, start, ids)
  {
    var n: nat :| StopsAt(tree, start, n) && path == Path(tree, Trail(tree, start, n));
    ids := Trail(tree, start, n);
    TrailLinks(tree, start, n);
    PathNames(tree, ids);
    TrailEnds(tree, start, n);
  }

  lemma TrailEnds(tree: Tree, start: string, n: nat)
    requires StopsAt(tree, start, n)
    ensures Ends(tree, start, Trail(tree, start, n))
  {
    TrailAt(tree, start, n);
    if n > 0 {
      var last := Trail(tree, start, n)[n - 1];
      assert last == Up(tree, start, n - 1);
      if !IsRoot(tree, last) {
        assert IsParent(tree, last, Up(tree, start, n));
      }
    }
  }

  /** The strict walk accepts exactly if such a chain ends at a root. */
  lemma StrictMeans(tree: Tree, start: string)
    ensures Rooted(tree, start) && LinksKnown(tree, start) <==>
              start == ""
              || exists ids :: ids != [] && IsChain(tree, start, ids) && IsRoot(tree, ids[|ids| - 1])
  {
    if start == "" {
      assert Up(tree, start, 0) == "";
      forall m: nat ensures Up(tree, start, m) == "" { EndStays(tree, start, 0, m); }
    } else {
      if Rooted(tree, start) && LinksKnown(tree, start) {
        var ids := RootedChain(tree, start);
      }
      if ids :| ids != [] && IsChain(tree, start, ids) && IsRoot(tree, ids[|ids| - 1]) {
        ChainIsRooted(tree, start, ids);
      }
    }
  }

  lemma {:induction false} FirstEnd(tree: Tree, start: string, m: nat) returns (n: nat)
    requires Up(tree, start, m) == ""
    ensures n <= m && Up(tree, start, n) == "" && forall k: nat | k < n :: Up(tree, start, k) != ""
  {
    if k: nat :| k < m && Up(tree, start, k) == "" {
      n := FirstEnd(tree, start, k);
    } else {
      n := m;
    }
  }

  lemma RootedChain(tree: Tree, start: string) returns (ids: seq<string>)
    requires start != "" && Rooted(tree, start) && LinksKnown(tree, start)
    ensures ids != [] && IsChain(tree, start, ids) && IsRoot(tree, ids[|ids| - 1])
  {
    var m: nat :| Up(tree, start, m) == "";
    var n := FirstEnd(tree, start, m);
    ids := Trail(tree, start, n);
    TrailAt(tree, start, n);
    assert Up(tree, start, 0) == start;
    forall j, k | 0 <= j < k < n ensures ids[j] != ids[k] {
      assert ids[j] == Up(tree, start, j) && ids[k] == Up(tree, start, k);
      if ids[j] == ids[k] {
        RepeatMeansNoRoot(tree, start, j, k);
        assert false;
      }
    }
    TrailLinks(tree, start, n);
    assert ids[n - 1] == Up(tree, start, n - 1) && Link(tree, ids[n - 1]) == "";
  }

  lemma {:induction false} ChainClimbs(tree: Tree, start: string, ids: seq<string>, k: nat)
    requires IsChain(tree, start, ids) && k < |ids|
    ensures Up(tree, start, k) == ids[k]
  {
    if k > 0 {
      ChainClimbs(tree, start, ids, k - 1);
      assert IsParent(tree, ids[k - 1], ids[k - 1 + 1]);
    }
  }

  lemma ChainIsRooted(tree: Tree, start: string, ids: seq<string>)
    requires ids != [] && IsChain(tree, start, ids) && IsRoot(tree, ids[|ids| - 1])
    ensures Rooted(tree, start) && LinksKnown(tree, start)
  {
    var n := |ids|;
    ChainClimbs(tree, start, ids, n - 1);
    assert Up(tree, start, n) == "";
    forall m: nat ensures Up(tree, start, m) != "" ==> Up(tree, start, m) in tree {
      if m < n { ChainClimbs(tree, start, ids, m); } else { EndStays(tree, start, n, m); }
    }
  }

  // ---------------------------------------------------------------- accepted trees

  /** Parents are known, and ranks fall from every category to its parent. */
  ghost predicate Ranks(tree: Tree, rank: string -> nat) {
    forall id, parent | id in tree && IsParent(tree, id, parent) :: parent in tree && rank(parent) < rank(id)
  }

  lemma {:induction false} RankedIsRooted(tree: Tree, rank: string -> nat, id: string)
    requires Ranks(tree, rank) && id in tree
    ensures Rooted(tree, id)
    decreases rank(id)
  {
    if id == "" || IsRoot(tree, id) {
      assert Up(tree, id, 0) == id && Up(tree, id, 1) == Link(tree, id);
    } else {
      var parent := tree[id].parent.value;
      assert IsParent(tree, id, parent);
      RankedIsRooted(tree, rank, parent);
      var n: nat :| Up(tree, parent, n) == "";
      assert Up(tree, id, 1) == Link(tree, Up(tree, id, 0));
      UpAdd(tree, id, 1, n);
    }
  }

  /** How far it is to the end of the walk. */
  ghost function Height(tree: Tree, id: string): nat
    requires Rooted(tree, id)
  {
    var m: nat :| Up(tree, id, m) == "";
    Smallest(tree, id, m)
  }

  ghost function Smallest(tree: Tree, id: string, m: nat): (n: nat)
    requires Up(tree, id, m) == ""
    ensures n <= m && Up(tree, id, n) == "" && forall k: nat | k < n :: Up(tree, id, k) != ""
  {
    if exists k: nat :: k < m && Up(tree, id, k) == "" then
      var k: nat :| k < m && Up(tree, id, k) == "";
      Smallest(tree, id, k)
    else m
  }

  lemma HeightIs(tree: Tree, id: string, n: nat)
    requires Up(tree, id, n) == "" && forall k: nat | k < n :: Up(tree, id, k) != ""
    ensures Rooted(tree, id) && Height(tree, id) == n
  {
    var h := Height(tree, id);
    assert Up(tree, id, h) == "";
    assert !(h < n);
    assert forall k: nat | k < h :: Up(tree, id, k) != "";
  }

  lemma HeightFalls(tree: Tree, id: string, parent: string)
    requires WellFormed(tree) && id in tree && id != "" && IsParent(tree, id, parent)
    ensures parent in tree && Rooted(tree, id) && Rooted(tree, parent)
    ensures Height(tree, id) == Height(tree, parent) + 1
  {
    assert ParentKnown(tree, id);
    var h := Height(tree, parent);
    assert Up(tree, id, 0) == id && Up(tree, id, 1) == parent;
    forall k: nat ensures Up(tree, id, k + 1) == Up(tree, parent, k) { UpAdd(tree, id, 1, k); }
    forall k: nat | k < h + 1 ensures Up(tree, id, k) != "" {
      if k > 0 { assert Up(tree, id, k - 1 + 1) == Up(tree, parent, k - 1); }
    }
    HeightIs(tree, id, h + 1);
  }

  /** A tree is accepted exactly if its categories can be ranked so that every parent is known and comes
      below its children. */
  lemma AcceptedMeans(tree: Tree)
    ensures WellFormed(tree) <==> exists rank: string -> nat :: Ranks(tree, rank)
  {
    if rank: string -> nat :| Ranks(tree, rank) {
      forall id | id in tree ensures ParentKnown(tree, id) && Rooted(tree, id) {
        RankedIsRooted(tree, rank, id);
        if HasParent(tree[id]) { assert IsParent(tree, id, tree[id].parent.value); }
      }
    }
    if WellFormed(tree) {
      var top := if "" in tree && HasParent(tree[""]) then Height(tree, tree[""].parent.value) + 1 else 0;
      var rank: string -> nat := id =>
          if id == "" then top else if Rooted(tree, id) then Height(tree, id) else 0;
      forall id, parent | id in tree && IsParent(tree, id, parent) ensures parent in tree && rank(parent) < rank(id) {
        assert ParentKnown(tree, id) && Rooted(tree, parent);
        if id != "" { HeightFalls(tree, id, parent); }
      }
      assert Ranks(tree, rank);
    }
  }
}
