/** Names in the runs directory: published runs, their staging directories and their locks,
    and which of them the cleanup of one run name reaches. */
module RunNames {

  predicate Alphanumeric(c: char) {
    'A' <= c <= 'Z' || 'a' <= c <= 'z' || '0' <= c <= '9'
  }

  predicate ValidName(s: string) {
    && 1 <= |s| <= 128
    && Alphanumeric(s[0])
    && forall i | 0 <= i < |s| :: Alphanumeric(s[i]) || s[i] in "_.-"
  }

  /** What `mkdtemp` appends: letters, digits and underscores, never a dot. */
  predicate ValidSuffix(s: string) {
    |s| > 0 && forall i | 0 <= i < |s| :: Alphanumeric(s[i]) || s[i] == '_'
  }

  const STAGE := ".stage-"

  function StagePrefix(name: string): string { "." + name + STAGE }

  function StagingName(name: string, suffix: string): string { StagePrefix(name) + suffix }

  function LockName(name: string): string { "." + name + ".lock" }

  /** The glob `.<name>.stage-*`; a valid name holds no character that a glob treats specially. */
  predicate Matches(name: string, entry: string) { StagePrefix(name) <= entry }

  /** `other` is a run name that itself looks like a staging name of `name`. */
  predicate Shadows(name: string, other: string) { name + STAGE <= other }

  /** The marker has one dot, at its start, so it overlaps no other dot. */
  lemma NoOverlap(at: nat, dot: nat, s: string)
    requires at + |STAGE| <= |s| && s[at..at + |STAGE|] == STAGE
    requires dot < |s| && s[dot] == '.'
    ensures !(at < dot < at + |STAGE|)
  {
    var mark := s[at..at + |STAGE|];
    assert forall k | at <= k < at + |STAGE| :: s[k] == mark[k - at];
  }

  /** Cleanup of run `a` reaches a staging directory of run `b` exactly when they are the same
      run or `b` is named after a staging directory of `a`. */
  lemma CleanupReachesStaging(a: string, b: string, suffix: string)
    requires ValidSuffix(suffix)
    ensures Matches(a, StagingName(b, suffix)) <==> a == b || Shadows(a, b)
  {
    var tail := b + STAGE + suffix;
    assert StagePrefix(a) == "." + (a + STAGE);
    assert StagingName(b, suffix) == "." + tail;
    assert tail[|b|..|b| + |STAGE|] == STAGE;
    if Matches(a, StagingName(b, suffix)) {
      PrefixOfTail(a + STAGE, tail);
      assert (a + STAGE)[|a|..|a| + |STAGE|] == STAGE;
      assert tail[|a|..|a| + |STAGE|] == STAGE;
      assert tail[|a|] == STAGE[0] && tail[|b|] == STAGE[0];
      NoOverlap(|a|, |b|, tail);
      NoOverlap(|b|, |a|, tail);
      if |a| == |b| {
        assert a == tail[..|a|] == b;
      } else if |a| < |b| {
        assert tail[..|a| + |STAGE|] == b[..|a| + |STAGE|];
      } else {
        assert false;
      }
    }
    if a == b || Shadows(a, b) {
      assert a + STAGE <= tail;
    }
  }

  lemma PrefixOfTail(p: string, t: string)
    requires "." + p <= "." + t
    ensures p <= t && |p| <= |t|
  {
    assert ("." + p)[1..] == p && ("." + t)[1..] == t;
    assert ("." + t)[..|p| + 1] == "." + p;
    assert t[..|p|] == ("." + t)[1..|p| + 1];
  }

  /** A published run never looks like a staging directory. */
  lemma CleanupMissesRuns(a: string, b: string)
    requires ValidName(b)
    ensures !Matches(a, b)
  {
    assert StagePrefix(a)[0] == '.';
  }

  /** The same exception, and no other, lets cleanup of `a` reach the lock file of `b`. */
  lemma CleanupReachesLock(a: string, b: string)
    ensures Matches(a, LockName(b)) <==> Shadows(a, b)
  {
    var tail := b + ".lock";
    assert StagePrefix(a) == "." + (a + STAGE);
    assert LockName(b) == "." + tail;
    if Matches(a, LockName(b)) {
      PrefixOfTail(a + STAGE, tail);
      assert (a + STAGE)[|a|..|a| + |STAGE|] == STAGE;
      assert tail[|a|..|a| + |STAGE|] == STAGE;
      assert tail[|a|] == STAGE[0] && tail[|a| + 1] == STAGE[1];
      NoOverlap(|a|, |b|, tail);
      if |b| < |a| + |STAGE| {
        assert false;
      }
      assert tail[..|a| + |STAGE|] == b[..|a| + |STAGE|];
    }
    if Shadows(a, b) {
      assert a + STAGE <= tail;
    }
  }

  /** No entry is reached by the cleanups of two runs, unless one is named after the other's staging. */
  lemma TwoCleanups(a: string, b: string, entry: string)
    requires Matches(a, entry) && Matches(b, entry)
    ensures a == b || Shadows(a, b) || Shadows(b, a)
  {
    var tail := entry[1..];
    StageAt(a, entry);
    StageAt(b, entry);
    hide Matches, StagePrefix;
    NoOverlap(|a|, |b|, tail);
    NoOverlap(|b|, |a|, tail);
    if |a| < |b| {
      assert tail[..|a| + |STAGE|] == b[..|a| + |STAGE|];
    } else if |b| < |a| {
      assert tail[..|b| + |STAGE|] == a[..|b| + |STAGE|];
    }
  }

  lemma StageAt(a: string, entry: string)
    requires Matches(a, entry)
    ensures entry != "" && |a| + |STAGE| <= |entry[1..]| && entry[1..][..|a| + |STAGE|] == a + STAGE
    ensures entry[1..][..|a|] == a && entry[1..][|a|..|a| + |STAGE|] == STAGE
    ensures entry[1..][|a|] == STAGE[0]
  {
    var tail := entry[1..];
    assert StagePrefix(a) == "." + (a + STAGE);
    assert entry[0] == StagePrefix(a)[0];
    assert entry == "." + tail;
    PrefixOfTail(a + STAGE, tail);
    assert (a + STAGE)[|a|..|a| + |STAGE|] == STAGE && (a + STAGE)[..|a|] == a;
  }
}
