/** A `run_pilot` call which nothing disturbs publishes its bundle, and clears away whatever earlier
    calls on its name have left behind. */
module RunProgress {
  import opened Common
  import opened RunNames
  import opened RunProtocol

  /** A state with one call. */
  function Solo(v: View): State { State(v.entries, [v.me], v.threadLocks, v.fileLocks) }

  lemma SoloStep(v: View, choice: Choice)
    ensures Step(Solo(v), Act(0, choice)) == Solo(SystemCall(v, 0, choice))
  {
    assert Solo(v).ViewOf(0) == v;
    hide SystemCall;
  }

  /** What the call has come to after these steps. */
  function Follow(v: View, choices: seq<Choice>): View {
    if choices == [] then v
    else SystemCall(Follow(v, choices[..|choices| - 1]), 0, choices[|choices| - 1])
  }

  function Acts(choices: seq<Choice>): seq<Event> {
    seq(|choices|, k requires 0 <= k < |choices| => Act(0, choices[k]))
  }

  lemma {:induction false} FollowRuns(v: View, choices: seq<Choice>)
    ensures Run(Solo(v), Acts(choices)) == Solo(Follow(v, choices))
  {
    hide SystemCall, Step, Solo;
    if choices != [] {
      var front, last := choices[..|choices| - 1], choices[|choices| - 1];
      FollowRuns(v, front);
      SoloStep(Follow(v, front), last);
      assert Acts(choices) == Acts(front) + [Act(0, last)];
      RunSnoc(Solo(v), Acts(front), Act(0, last));
    }
  }

  ghost predicate Leads(v: View, w: View) { exists choices :: Follow(v, choices) == w }

  lemma LeadsNowhere(v: View)
    ensures Leads(v, v)
  {
    assert Follow(v, []) == v;
  }

  lemma LeadsOn(u: View, v: View, choice: Choice, w: View)
    requires Leads(u, v) && SystemCall(v, 0, choice) == w
    ensures Leads(u, w)
  {
    hide SystemCall;
    var choices :| Follow(u, choices) == v;
    assert (choices + [choice])[..|choices|] == choices;
    assert Follow(u, choices + [choice]) == w;
  }

  function Begun(name: string, bundle: seq<Item>, entries: map<string, Entry>): View {
    View(Call(0, name, bundle, Validate, false), entries, map[], map[])
  }

  /** The call at this point, with both of its locks. */
  function Locking(name: string, bundle: seq<Item>, pc: Pc, entries: map<string, Entry>): View {
    View(Call(0, name, bundle, pc, false), entries, map[(0, name) := 0], map[name := 0])
  }

  function Renamed(name: string, bundle: seq<Item>, entries: map<string, Entry>): View {
    View(Call(0, name, bundle, FileUnlock(true), true), entries, map[(0, name) := 0], map[name := 0])
  }

  function Ended(name: string, bundle: seq<Item>, entries: map<string, Entry>): View {
    View(Call(0, name, bundle, Returned, true), entries, map[], map[])
  }

  lemma Enters(name: string, bundle: seq<Item>, entries: map<string, Entry>)
    requires ValidName(name) && name !in entries
    ensures Leads(Begun(name, bundle, entries), Locking(name, bundle, List, entries))
  {
    var v0 := Begun(name, bundle, entries);
    var v1 := v0.To(ThreadLock);
    var v2 := v0.To(FileLock).(threadLocks := map[(0, name) := 0]);
    var v3, v4 := Locking(name, bundle, Recheck, entries), Locking(name, bundle, List, entries);
    hide ValidName, PrepareCall, StagedCall;
    assert SystemCall(v0, 0, Proceed("")) == v1 && SystemCall(v1, 0, Proceed("")) == v2;
    assert SystemCall(v2, 0, Proceed("")) == v3 && SystemCall(v3, 0, Proceed("")) == v4;
    hide SystemCall, Leads;
    LeadsNowhere(v0);
    LeadsOn(v0, v0, Proceed(""), v1);
    LeadsOn(v0, v1, Proceed(""), v2);
    LeadsOn(v0, v2, Proceed(""), v3);
    LeadsOn(v0, v3, Proceed(""), v4);
  }

  lemma ChipStep(name: string, bundle: seq<Item>, entries: map<string, Entry>, todo: set<string>, d: string)
    requires d in todo && d in entries
    ensures var v := Locking(name, bundle, Sweep(todo), entries);
            if entries[d].Folder? && entries[d].items != [] then
              var less := entries[d := Folder(entries[d].items[..|entries[d].items| - 1])];
              SystemCall(v, 0, Proceed(d)) == Locking(name, bundle, Sweep(todo), less)
            else SystemCall(v, 0, Proceed(d)) == Locking(name, bundle, Sweep(todo - {d}), entries - {d})
  {
    hide LockCall, StagedCall;
  }

  /** One leftover is removed, file by file. */
  lemma {:induction false} SweepsOne(u: View, name: string, bundle: seq<Item>, entries: map<string, Entry>,
                                     todo: set<string>, d: string)
    requires d in todo && d in entries && Leads(u, Locking(name, bundle, Sweep(todo), entries))
    ensures Leads(u, Locking(name, bundle, Sweep(todo - {d}), entries - {d}))
    decreases if entries[d].Folder? then |entries[d].items| else 0
  {
    hide SystemCall, Leads, Locking;
    ChipStep(name, bundle, entries, todo, d);
    var v := Locking(name, bundle, Sweep(todo), entries);
    if entries[d].Folder? && entries[d].items != [] {
      var less := entries[d := Folder(entries[d].items[..|entries[d].items| - 1])];
      LeadsOn(u, v, Proceed(d), Locking(name, bundle, Sweep(todo), less));
      SweepsOne(u, name, bundle, less, todo, d);
      assert less - {d} == entries - {d};
    } else {
      LeadsOn(u, v, Proceed(d), Locking(name, bundle, Sweep(todo - {d}), entries - {d}));
    }
  }

  /** ... and so are all of them. */
  lemma {:induction false} Sweeps(u: View, name: string, bundle: seq<Item>, entries: map<string, Entry>,
                                  todo: set<string>)
    requires todo <= entries.Keys && Leads(u, Locking(name, bundle, Sweep(todo), entries))
    ensures Leads(u, Locking(name, bundle, Sweep({}), entries - todo))
    decreases todo
  {
    hide Leads, Locking;
    if todo == {} {
      assert entries - todo == entries;
    } else {
      var d :| d in todo;
      SweepsOne(u, name, bundle, entries, todo, d);
      Sweeps(u, name, bundle, entries - {d}, todo - {d});
      assert entries - {d} - (todo - {d}) == entries - todo;
    }
  }

  /** What the cleanup of this name leaves: all but `.<name>.stage-*`. */
  function Swept(name: string, entries: map<string, Entry>): map<string, Entry> {
    map d | d in entries && !("." + name + ".stage-" <= d) :: entries[d]
  }

  /** From the glob to an empty staging directory. */
  lemma Prepares(u: View, name: string, bundle: seq<Item>, entries: map<string, Entry>)
    requires Leads(u, Locking(name, bundle, List, entries))
    ensures var dir := StagingName(name, "x");
            dir !in Swept(name, entries)
            && Leads(u, Locking(name, bundle, Build(dir, 0), Swept(name, entries)[dir := Folder([])]))
  {
    var todo := set d | d in entries && Matches(name, d);
    var dir := StagingName(name, "x");
    assert entries - todo == Swept(name, entries);
    assert Matches(name, dir) && ValidSuffix("x");
    hide SystemCall, Leads, Matches, StagingName, ValidSuffix;
    var v0 := Locking(name, bundle, List, entries);
    ListStep(v0, 0, "");
    LeadsOn(u, v0, Proceed(""), Locking(name, bundle, Sweep(todo), entries));
    Sweeps(u, name, bundle, entries, todo);
    var v1 := Locking(name, bundle, Sweep({}), Swept(name, entries));
    SweptStep(v1, 0, "");
    var v2 := Locking(name, bundle, MakeStaging, Swept(name, entries));
    LeadsOn(u, v1, Proceed(""), v2);
    StagingStep(v2, 0, "x");
    LeadsOn(u, v2, Proceed("x"), Locking(name, bundle, Build(dir, 0), Swept(name, entries)[dir := Folder([])]));
  }

  lemma BuildStep(name: string, bundle: seq<Item>, entries: map<string, Entry>, dir: string, n: nat)
    requires n < |bundle| && dir !in entries
    ensures SystemCall(Locking(name, bundle, Build(dir, n), entries[dir := Folder(bundle[..n])]), 0, Proceed(""))
            == Locking(name, bundle, Build(dir, n + 1), entries[dir := Folder(bundle[..n + 1])])
  {
    hide LockCall, PrepareCall;
    assert bundle[..n] + [bundle[n]] == bundle[..n + 1];
    var more := Folder(bundle[..n + 1]);
    assert entries[dir := Folder(bundle[..n])][dir := more] == entries[dir := more];
  }

  lemma {:induction false} Builds(u: View, name: string, bundle: seq<Item>, entries: map<string, Entry>, dir: string,
                                  n: nat)
    requires n <= |bundle| && dir !in entries
    requires Leads(u, Locking(name, bundle, Build(dir, 0), entries[dir := Folder([])]))
    ensures Leads(u, Locking(name, bundle, Build(dir, n), entries[dir := Folder(bundle[..n])]))
  {
    hide SystemCall, Leads, Locking;
    if n == 0 {
      assert bundle[..0] == [];
    } else {
      Builds(u, name, bundle, entries, dir, n - 1);
      BuildStep(name, bundle, entries, dir, n - 1);
      LeadsOn(u, Locking(name, bundle, Build(dir, n - 1), entries[dir := Folder(bundle[..n - 1])]), Proceed(""),
          Locking(name, bundle, Build(dir, n), entries[dir := Folder(bundle[..n])]));
    }
  }

  lemma PublishingSteps(name: string, bundle: seq<Item>, entries: map<string, Entry>, dir: string)
    requires dir !in entries && name !in entries && name != dir
    ensures var built, now := entries[dir := Folder(bundle)], entries[name := Folder(bundle)];
            var v1 := Renamed(name, bundle, now);
            var v2 := v1.To(ThreadUnlock(true)).(fileLocks := map[]);
            && SystemCall(Locking(name, bundle, Build(dir, |bundle|), built), 0, Proceed(""))
               == Locking(name, bundle, Rename(dir), built)
            && SystemCall(Locking(name, bundle, Rename(dir), built), 0, Proceed("")) == v1
            && SystemCall(v1, 0, Proceed("")) == v2 && SystemCall(v2, 0, Proceed("")) == Ended(name, bundle, now)
  {
    var built := entries[dir := Folder(bundle)];
    assert (built - {dir})[name := built[dir]] == entries[name := Folder(bundle)];
    assert map[name := 0] - {name} == map[];
    assert map[(0, name) := 0] - {(0, name)} == map[];
    hide ValidName, PrepareCall;
  }

  lemma Publishes(u: View, name: string, bundle: seq<Item>, entries: map<string, Entry>, dir: string)
    requires dir !in entries && name !in entries && name != dir
    requires Leads(u, Locking(name, bundle, Build(dir, |bundle|), entries[dir := Folder(bundle)]))
    ensures Leads(u, Ended(name, bundle, entries[name := Folder(bundle)]))
  {
    var built, now := entries[dir := Folder(bundle)], entries[name := Folder(bundle)];
    PublishingSteps(name, bundle, entries, dir);
    var v1 := Renamed(name, bundle, now);
    var v2 := v1.To(ThreadUnlock(true)).(fileLocks := map[]);
    hide SystemCall, Leads, Locking;
    var v0 := Locking(name, bundle, Rename(dir), built);
    LeadsOn(u, Locking(name, bundle, Build(dir, |bundle|), built), Proceed(""), v0);
    LeadsOn(u, v0, Proceed(""), v1);
    LeadsOn(u, v1, Proceed(""), v2);
    LeadsOn(u, v2, Proceed(""), Ended(name, bundle, now));
  }

  /** A letter or digit, then up to 127 letters, digits, underscores, dots and dashes. */
  predicate IsRunName(s: string) {
    && 1 <= |s| <= 128
    && ('A' <= s[0] <= 'Z' || 'a' <= s[0] <= 'z' || '0' <= s[0] <= '9')
    && forall i | 0 <= i < |s| ::
         || 'A' <= s[i] <= 'Z' || 'a' <= s[i] <= 'z' || '0' <= s[i] <= '9'
         || s[i] == '_' || s[i] == '.' || s[i] == '-'
  }

  lemma RunNamesMean(s: string)
    ensures ValidName(s) <==> IsRunName(s)
  {
    var others := "_.-";
    assert others[0] == '_' && others[1] == '.' && others[2] == '-';
    assert forall c: char :: c in others <==> c == '_' || c == '.' || c == '-';
  }

  /** A call on any other name, or on a name that is taken, raises and changes nothing. */
  lemma OthersAreRefused(v: View, i: nat, choice: Choice)
    requires v.me.pc == Validate && (!IsRunName(v.me.name) || v.me.name in v.entries)
    ensures SystemCall(v, i, choice) == v.(me := v.me.(pc := Raised))
  {
    RunNamesMean(v.me.name);
    hide PrepareCall, StagedCall, ValidName, IsRunName;
  }

  /** From any directory in which the name is free: a call that nothing disturbs publishes its whole
      bundle under its name, removes all that its cleanup matches, leaves every other entry alone, and
      gives back its locks. */
  lemma UndisturbedCallPublishes(name: string, bundle: seq<Item>, entries: map<string, Entry>)
      returns (events: seq<Event>)
    requires IsRunName(name) && name !in entries
    ensures Run(Solo(Begun(name, bundle, entries)), events)
            == Solo(Ended(name, bundle, Swept(name, entries)[name := Folder(bundle)]))
  {
    var u, dir := Begun(name, bundle, entries), StagingName(name, "x");
    RunNamesMean(name);
    CleanupMissesRuns(name, name);
    assert Matches(name, dir);
    hide Leads, Begun, Ended, Locking, Solo, SystemCall, Run;
    Enters(name, bundle, entries);
    Prepares(u, name, bundle, entries);
    Builds(u, name, bundle, Swept(name, entries), dir, |bundle|);
    assert bundle[..|bundle|] == bundle;
    Publishes(u, name, bundle, Swept(name, entries), dir);
    events := LeadsByRun(u, Ended(name, bundle, Swept(name, entries)[name := Folder(bundle)]));
  }

  lemma LeadsByRun(u: View, w: View) returns (events: seq<Event>)
    requires Leads(u, w)
    ensures Run(Solo(u), events) == Solo(w)
  {
    hide SystemCall, Run;
    var choices :| Follow(u, choices) == w;
    FollowRuns(u, choices);
    events := Acts(choices);
  }
}
