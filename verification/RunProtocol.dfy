/** Any number of concurrent `run_pilot` calls, on any run names, in any number of processes,
    over one runs directory.  Every system call is one step; a step may raise, and a process
    may die between any two steps. */
module RunProtocol {
  import opened Common
  import opened RunNames

  /** One file of a run, by relative path. */
  datatype Item = Item(path: string, data: Bytes)

  /** An entry of the runs directory: a directory with its files, or a stray plain file. */
  datatype Entry = Folder(items: seq<Item>) | Plain

  /** `bundle` is what `_build_pilot` would write for this call, the seal last. */
  datatype Pc =
    | Validate
    | ThreadLock
    | FileLock
    | Recheck                       // `lexists` under the lock
    | List                          // the glob of `_remove_abandoned_staging`
    | Sweep(todo: set<string>)      // `_remove_tree` on each candidate
    | MakeStaging
    | Build(dir: string, written: nat)
    | Rename(dir: string)
    | Discard(dir: string)          // `finally`: remove the staging directory
    | FileUnlock(good: bool)
    | ThreadUnlock(good: bool)
    | Returned
    | Raised
    | Dead

  datatype Call = Call(process: nat, name: string, bundle: seq<Item>, pc: Pc, published: bool)
  {
    predicate Prepares() { pc.List? || pc.Sweep? || pc.MakeStaging? }

    predicate Staged() { pc.Build? || pc.Rename? || pc.Discard? }

    predicate InBody() { pc.Recheck? || Prepares() || Staged() }

    predicate HoldsFileLock() { InBody() || pc.FileUnlock? }

    predicate HoldsThreadLock() { HoldsFileLock() || pc.FileLock? || pc.ThreadUnlock? }

    function At(next: Pc): Call { this.(pc := next) }
  }

  datatype View = View(
    me: Call,
    entries: map<string, Entry>,
    threadLocks: map<(nat, string), nat>,
    fileLocks: map<string, nat>)
  {
    function To(next: Pc): View { this.(me := me.At(next)) }

    function Put(name: string, entry: Entry): View { this.(entries := entries[name := entry]) }

    /** One step of removing a tree: its last file, or the emptied entry itself. */
    function Chip(name: string): View {
      if name in entries && entries[name].Folder? && entries[name].items != [] then
        Put(name, Folder(entries[name].items[..|entries[name].items| - 1]))
      else this.(entries := entries - {name})
    }

    predicate SameLocks(v: View) { threadLocks == v.threadLocks && fileLocks == v.fileLocks }
  }

  datatype State = State(
    entries: map<string, Entry>,
    calls: seq<Call>,
    threadLocks: map<(nat, string), nat>,
    fileLocks: map<string, nat>)
  {
    function ViewOf(i: nat): View
      requires i < |calls|
    {
      View(calls[i], entries, threadLocks, fileLocks)
    }

    function After(i: nat, v: View): State
      requires i < |calls|
    {
      State(v.entries, calls[i := v.me], v.threadLocks, v.fileLocks)
    }
  }

  /** `pick` is the candidate removed next, or the random suffix of the new staging directory. */
  datatype Choice = Proceed(pick: string) | Fault

  datatype Event = Act(call: nat, choice: Choice) | Die(process: nat)

  function SystemCall(v: View, i: nat, choice: Choice): View {
    if v.me.Prepares() then PrepareCall(v, choice)
    else if v.me.Staged() then StagedCall(v, choice.Proceed?)
    else LockCall(v, i, choice.Proceed?)
  }

  /** The name check, both existence checks, and `_run_reservation` around everything else. */
  function LockCall(v: View, i: nat, ok: bool): View {
    var name := v.me.name;
    var key := (v.me.process, name);
    match v.me.pc
    case Validate =>
      v.To(if ok && ValidName(name) && name !in v.entries then ThreadLock else Raised)
    case ThreadLock =>
      if !ok then v.To(Raised)
      else if key in v.threadLocks then v
      else v.To(FileLock).(threadLocks := v.threadLocks[key := i])
    case FileLock =>
      if !ok then v.To(ThreadUnlock(false))
      else if name in v.fileLocks then v
      else v.To(Recheck).(fileLocks := v.fileLocks[name := i])
    case Recheck =>
      v.To(if ok && name !in v.entries then List else FileUnlock(false))
    case FileUnlock(good) =>
      v.To(ThreadUnlock(ok && good)).(fileLocks := v.fileLocks - {name})
    case ThreadUnlock(good) =>
      v.To(if good then Returned else Raised).(threadLocks := v.threadLocks - {key})
    case _ => v
  }

  /** Sweep what crashed calls left behind, then `mkdtemp`. */
  function PrepareCall(v: View, choice: Choice): (r: View)
    ensures r.SameLocks(v)
  {
    var name := v.me.name;
    if choice.Fault? then v.To(FileUnlock(false))
    else
      match v.me.pc
      case List => v.To(Sweep(set d | d in v.entries && Matches(name, d)))
      case Sweep(todo) =>
        if todo == {} then v.To(MakeStaging)
        else if choice.pick !in todo then v
        else
          var r := v.Chip(choice.pick);
          if choice.pick in r.entries then r else r.To(Sweep(todo - {choice.pick}))
      case MakeStaging =>
        var dir := StagingName(name, choice.pick);
        if !ValidSuffix(choice.pick) || dir in v.entries then v
        else v.Put(dir, Folder([])).To(Build(dir, 0))
      case _ => v
  }

  /** Build in private, publish by rename; on any exception remove the staging directory. */
  function StagedCall(v: View, ok: bool): (r: View)
    ensures r.SameLocks(v)
  {
    var me := v.me;
    match me.pc
    case Build(dir, written) =>
      if !ok then v.To(Discard(dir))
      else if written >= |me.bundle| then v.To(Rename(dir))
      else if dir !in v.entries || v.entries[dir].Plain? then v.To(Discard(dir))
      else v.Put(dir, Folder(v.entries[dir].items + [me.bundle[written]])).To(Build(dir, written + 1))
    case Rename(dir) =>
      if !ok || me.name in v.entries || dir !in v.entries then v.To(Discard(dir))
      else
        v.(entries := (v.entries - {dir})[me.name := v.entries[dir]],
           me := me.At(FileUnlock(true)).(published := true))
    case Discard(dir) =>
      if !ok then v.To(FileUnlock(false))
      else
        var r := v.Chip(dir);
        if dir in r.entries then r else r.To(FileUnlock(false))
    case _ => v
  }

  function Act1(s: State, i: nat, choice: Choice): State
    requires i < |s.calls|
  {
    s.After(i, SystemCall(s.ViewOf(i), i, choice))
  }

  function Kill(s: State, p: nat): State {
    s.(calls := seq(|s.calls|, i requires 0 <= i < |s.calls| =>
         if s.calls[i].process == p && !s.calls[i].pc.Returned? && !s.calls[i].pc.Raised?
         then s.calls[i].At(Dead) else s.calls[i]),
       threadLocks := map k | k in s.threadLocks && k.0 != p :: s.threadLocks[k],
       fileLocks := map k | k in s.fileLocks
                            && !(s.fileLocks[k] < |s.calls| && s.calls[s.fileLocks[k]].process == p)
                            :: s.fileLocks[k])
  }

  function Step(s: State, e: Event): State {
    match e
    case Act(i, choice) => if i < |s.calls| then Act1(s, i, choice) else s
    case Die(p) => Kill(s, p)
  }

  function Run(s: State, events: seq<Event>): State {
    if events == [] then s
    else Step(Run(s, events[..|events| - 1]), events[|events| - 1])
  }

  /** No call uses a name that looks like a staging directory of another call's name. */
  ghost predicate Isolated(calls: seq<Call>) {
    forall i, j | 0 <= i < |calls| && 0 <= j < |calls| && ValidName(calls[i].name) && ValidName(calls[j].name) ::
      !Shadows(calls[i].name, calls[j].name)
  }

  /** Where a run is published, nothing of it is left in staging. */
  ghost predicate Tidy(entries: map<string, Entry>, name: string) {
    ValidName(name) && name in entries ==> forall d | d in entries :: !Matches(name, d)
  }

  /** Any calls, anything in the directory, no call under way. */
  ghost predicate Init(s: State) {
    && s.threadLocks == map[] && s.fileLocks == map[]
    && forall i | 0 <= i < |s.calls| :: s.calls[i].pc == Validate && !s.calls[i].published
  }

  // ---------------------------------------------------------------- invariant

  ghost predicate Locked(s: State, i: nat)
    requires i < |s.calls|
  {
    var me := s.calls[i];
    && (me.HoldsFileLock() ==> me.name in s.fileLocks && s.fileLocks[me.name] == i)
    && (me.HoldsThreadLock() ==>
          (me.process, me.name) in s.threadLocks && s.threadLocks[(me.process, me.name)] == i)
  }

  predicate IsStagingOf(name: string, dir: string) {
    StagePrefix(name) <= dir && ValidSuffix(dir[|StagePrefix(name)|..])
  }

  ghost predicate OnlyStaging(entries: map<string, Entry>, name: string, allowed: set<string>) {
    forall d | d in entries && Matches(name, d) :: d in allowed
  }

  ghost predicate Local(entries: map<string, Entry>, me: Call) {
    && (!me.pc.Validate? && !me.pc.Raised? && !me.pc.Dead? ==> ValidName(me.name))
    && (me.published ==> ValidName(me.name) && me.name in entries && entries[me.name] == Folder(me.bundle))
    && (me.published ==> me.pc.FileUnlock? || me.pc.ThreadUnlock? || me.pc.Returned? || me.pc.Raised? || me.pc.Dead?)
    && (me.pc == FileUnlock(true) || me.pc == ThreadUnlock(true) || me.pc == Returned ==> me.published)
    && (me.Prepares() || me.Staged() ==> me.name !in entries)
    && (me.pc.Sweep? ==> OnlyStaging(entries, me.name, me.pc.todo)
                         && forall d | d in me.pc.todo :: Matches(me.name, d))
    && (me.pc.MakeStaging? ==> OnlyStaging(entries, me.name, {}))
    && (me.Staged() ==> IsStagingOf(me.name, me.pc.dir) && me.pc.dir in entries
                        && OnlyStaging(entries, me.name, {me.pc.dir}))
    && (me.pc.Build? ==> me.pc.written <= |me.bundle|
                         && entries[me.pc.dir] == Folder(me.bundle[..me.pc.written]))
    && (me.pc.Rename? ==> entries[me.pc.dir] == Folder(me.bundle))
  }

  ghost predicate Inv(s: State) {
    && Isolated(s.calls)
    && (forall i | 0 <= i < |s.calls| :: Locked(s, i))
    && (forall i | 0 <= i < |s.calls| :: Local(s.entries, s.calls[i]))
  }

  // ------------------------------------------------------------- preservation

  predicate SameAt(was: map<string, Entry>, now: map<string, Entry>, d: string) {
    (d in was <==> d in now) && (d in was ==> was[d] == now[d])
  }

  /** All that a step may do to one entry: in the body of the lock, work on a match of its
      own name, or publish where nothing was. */
  predicate Touches(me: Call, was: map<string, Entry>, now: map<string, Entry>, d: string) {
    && (me.Prepares() || me.Staged()) && ValidName(me.name) && me.name !in was
    && (Matches(me.name, d) || (d == me.name && me.pc.Rename?))
  }

  ghost predicate TouchesOnly(me: Call, was: map<string, Entry>, now: map<string, Entry>) {
    forall d :: SameAt(was, now, d) || Touches(me, was, now, d)
  }

  predicate LockDiscipline(v: View, r: View, i: nat) {
    var name := v.me.name;
    var key := (v.me.process, name);
    && r.me.name == name && r.me.process == v.me.process && r.me.bundle == v.me.bundle
    && (if v.me.HoldsFileLock() == r.me.HoldsFileLock() then r.fileLocks == v.fileLocks
        else if r.me.HoldsFileLock() then name !in v.fileLocks && r.fileLocks == v.fileLocks[name := i]
        else r.fileLocks == v.fileLocks - {name})
    && (if v.me.HoldsThreadLock() == r.me.HoldsThreadLock() then r.threadLocks == v.threadLocks
        else if r.me.HoldsThreadLock() then key !in v.threadLocks && r.threadLocks == v.threadLocks[key := i]
        else r.threadLocks == v.threadLocks - {key})
  }

  lemma TakingDiscipline(v: View, i: nat, ok: bool)
    requires !v.me.Prepares() && !v.me.Staged() && !v.me.pc.FileUnlock? && !v.me.pc.ThreadUnlock?
    ensures LockDiscipline(v, LockCall(v, i, ok), i)
  {
    hide ValidName;
    match v.me.pc
    case ThreadLock =>
    case FileLock =>
    case _ =>
  }

  lemma ReleasingDiscipline(v: View, i: nat, ok: bool)
    requires v.me.pc.FileUnlock? || v.me.pc.ThreadUnlock?
    ensures LockDiscipline(v, LockCall(v, i, ok), i)
  {
    hide ValidName;
  }

  lemma BodyCallDiscipline(v: View, i: nat, choice: Choice)
    requires v.me.Prepares() || v.me.Staged()
    ensures LockDiscipline(v, SystemCall(v, i, choice), i)
  {
    hide LockCall, Matches, StagingName, ValidSuffix;
  }

  lemma CallDiscipline(v: View, i: nat, choice: Choice)
    ensures LockDiscipline(v, SystemCall(v, i, choice), i)
  {
    hide LockCall, PrepareCall, StagedCall;
    if v.me.Prepares() || v.me.Staged() {
      BodyCallDiscipline(v, i, choice);
    } else {
      if v.me.pc.FileUnlock? || v.me.pc.ThreadUnlock? {
        ReleasingDiscipline(v, i, choice.Proceed?);
      } else {
        TakingDiscipline(v, i, choice.Proceed?);
      }
    }
  }

  lemma PrepareCallTouches(v: View, choice: Choice)
    requires v.me.Prepares() && Local(v.entries, v.me)
    ensures TouchesOnly(v.me, v.entries, PrepareCall(v, choice).entries)
  {
    forall suffix ensures Matches(v.me.name, StagingName(v.me.name, suffix)) {}
    hide Matches, ValidName, StagingName;
  }

  lemma StagedCallTouches(v: View, ok: bool)
    requires v.me.Staged() && Local(v.entries, v.me)
    ensures TouchesOnly(v.me, v.entries, StagedCall(v, ok).entries)
  {
    assert Matches(v.me.name, v.me.pc.dir);
    hide Matches, ValidName, StagePrefix, OnlyStaging;
  }

  lemma CallTouches(v: View, i: nat, choice: Choice)
    requires Local(v.entries, v.me)
    ensures TouchesOnly(v.me, v.entries, SystemCall(v, i, choice).entries)
  {
    hide PrepareCall, StagedCall, Local;
    if v.me.Prepares() {
      PrepareCallTouches(v, choice);
    } else if v.me.Staged() {
      StagedCallTouches(v, choice.Proceed?);
    }
  }

  lemma StagingOfSelf(name: string, suffix: string)
    requires ValidSuffix(suffix)
    ensures IsStagingOf(name, StagingName(name, suffix)) && Matches(name, StagingName(name, suffix))
  {
    assert StagingName(name, suffix)[|StagePrefix(name)|..] == suffix;
  }

  lemma PrepareCallLocal(v: View, choice: Choice)
    requires v.me.Prepares() && Local(v.entries, v.me)
    ensures var r := PrepareCall(v, choice); Local(r.entries, r.me)
  {
    CleanupMissesRuns(v.me.name, v.me.name);
    if choice.Proceed? && ValidSuffix(choice.pick) {
      StagingOfSelf(v.me.name, choice.pick);
    }
    hide ValidName, ValidSuffix, Matches, StagingName, IsStagingOf;
  }

  lemma StagedCallLocal(v: View, ok: bool)
    requires v.me.Staged() && Local(v.entries, v.me)
    ensures var r := StagedCall(v, ok); Local(r.entries, r.me)
  {
    CleanupMissesRuns(v.me.name, v.me.name);
    assert Matches(v.me.name, v.me.pc.dir);
    hide ValidName, ValidSuffix, Matches, StagingName, IsStagingOf;
  }

  lemma EnterCallLocal(v: View, i: nat, ok: bool)
    requires (v.me.pc.Validate? || v.me.pc.ThreadLock? || v.me.pc.FileLock? || v.me.pc.Recheck?)
    requires Local(v.entries, v.me)
    ensures var r := LockCall(v, i, ok); Local(r.entries, r.me)
  {
    hide ValidName, OnlyStaging, IsStagingOf;
  }

  lemma LeaveCallLocal(v: View, i: nat, ok: bool)
    requires !v.me.InBody() && !v.me.pc.Validate? && !v.me.pc.ThreadLock? && !v.me.pc.FileLock?
    requires Local(v.entries, v.me)
    ensures var r := LockCall(v, i, ok); Local(r.entries, r.me)
  {
    hide ValidName, OnlyStaging, IsStagingOf;
  }

  lemma CallLocal(v: View, i: nat, choice: Choice)
    requires Local(v.entries, v.me)
    ensures var r := SystemCall(v, i, choice); Local(r.entries, r.me)
  {
    hide LockCall, PrepareCall, StagedCall, Local;
    if v.me.Prepares() {
      PrepareCallLocal(v, choice);
    } else if v.me.Staged() {
      StagedCallLocal(v, choice.Proceed?);
    } else if v.me.InBody() || v.me.pc.Validate? || v.me.pc.ThreadLock? || v.me.pc.FileLock? {
      EnterCallLocal(v, i, choice.Proceed?);
    } else {
      LeaveCallLocal(v, i, choice.Proceed?);
    }
  }

  /** Seen from another run, a step touches neither the published run nor anything its cleanup reaches. */
  lemma OtherRunUntouched(me: Call, was: map<string, Entry>, now: map<string, Entry>, other: string, d: string)
    requires Touches(me, was, now, d)
    requires ValidName(other) && other != me.name && !Shadows(me.name, other) && !Shadows(other, me.name)
    ensures d != other && !Matches(other, d)
  {
    CleanupMissesRuns(me.name, other);
    CleanupMissesRuns(other, me.name);
    if Matches(other, d) && Matches(me.name, d) {
      TwoCleanups(other, me.name, d);
    }
    hide Matches, ValidName, Shadows;
  }

  /** Nothing is touched that the call with this name may see. */
  ghost predicate Unseen(was: map<string, Entry>, now: map<string, Entry>, name: string) {
    SameAt(was, now, name) && forall d | Matches(name, d) :: SameAt(was, now, d)
  }

  lemma UnseenLocal(was: map<string, Entry>, now: map<string, Entry>, you: Call)
    requires Local(was, you) && Unseen(was, now, you.name)
    ensures Local(now, you)
  {
    if you.Staged() {
      assert Matches(you.name, you.pc.dir);
    }
    hide Matches, ValidName, IsStagingOf;
  }

  lemma CallUnseenElsewhere(s: State, i: nat, choice: Choice, other: string)
    requires i < |s.calls| && Local(s.entries, s.calls[i])
    requires ValidName(other) && other != s.calls[i].name
    requires !Shadows(s.calls[i].name, other) && !Shadows(other, s.calls[i].name)
    ensures Unseen(s.entries, Act1(s, i, choice).entries, other)
  {
    var v := s.ViewOf(i);
    var now := SystemCall(v, i, choice).entries;
    CallTouches(v, i, choice);
    forall d | d == other || Matches(other, d) ensures SameAt(s.entries, now, d) {
      if Touches(v.me, s.entries, now, d) {
        OtherRunUntouched(v.me, s.entries, now, other, d);
      }
    }
    hide SystemCall, Local, Matches, ValidName, Shadows;
  }

  /** A call outside the body of the lock only relies on its published run. */
  lemma BystanderLocal(s: State, i: nat, choice: Choice, j: nat)
    requires i < |s.calls| && j < |s.calls| && i != j && Inv(s)
    requires s.calls[i].name == s.calls[j].name
    ensures Local(Act1(s, i, choice).entries, s.calls[j])
  {
    var v := s.ViewOf(i);
    var now := SystemCall(v, i, choice).entries;
    var you := s.calls[j];
    assert Local(s.entries, v.me) && Local(s.entries, you) && Locked(s, i) && Locked(s, j);
    CallTouches(v, i, choice);
    assert SameAt(s.entries, now, you.name) || Touches(v.me, s.entries, now, you.name);
    if !(v.me.Prepares() || v.me.Staged()) {
      assert forall d :: SameAt(s.entries, now, d);
    }
    hide SystemCall, Matches, ValidName, Shadows, OnlyStaging, IsStagingOf, Isolated, Tidy;
  }

  lemma ActKeepsLocal(s: State, i: nat, choice: Choice, j: nat)
    requires i < |s.calls| && j < |s.calls| && Inv(s)
    ensures var s' := Act1(s, i, choice); Local(s'.entries, s'.calls[j])
  {
    assert Local(s.entries, s.calls[i]) && Local(s.entries, s.calls[j]);
    if i == j {
      CallLocal(s.ViewOf(i), i, choice);
    } else if s.calls[i].name == s.calls[j].name {
      BystanderLocal(s, i, choice, j);
    } else if ValidName(s.calls[j].name) && ValidName(s.calls[i].name) {
      CallUnseenElsewhere(s, i, choice, s.calls[j].name);
      UnseenLocal(s.entries, Act1(s, i, choice).entries, s.calls[j]);
    } else if ValidName(s.calls[j].name) {
      CallTouches(s.ViewOf(i), i, choice);
      assert Unseen(s.entries, Act1(s, i, choice).entries, s.calls[j].name);
      UnseenLocal(s.entries, Act1(s, i, choice).entries, s.calls[j]);
    }
    hide SystemCall, Matches, ValidName, Shadows, OnlyStaging, IsStagingOf, Tidy;
  }

  /** A call publishes only over an absent name, out of its only staging directory. */
  lemma CallPublishes(v: View, i: nat, choice: Choice)
    requires Local(v.entries, v.me)
    ensures var r := SystemCall(v, i, choice);
            r.me.published && !v.me.published ==>
              && v.me.name !in v.entries
              && r.entries[v.me.name] == Folder(v.me.bundle)
              && Tidy(r.entries, v.me.name)
  {
    if v.me.Staged() {
      CleanupMissesRuns(v.me.name, v.me.name);
      assert Matches(v.me.name, v.me.pc.dir);
    }
    hide LockCall, PrepareCall, Matches, ValidName, IsStagingOf;
    PublishedFlag(v, i, choice);
  }

  lemma PublishedFlag(v: View, i: nat, choice: Choice)
    ensures var r := SystemCall(v, i, choice);
            && (v.me.published ==> r.me.published)
            && (r.me.published && !v.me.published ==> v.me.pc.Rename? && choice.Proceed?
                                                      && v.me.name !in v.entries && v.me.pc.dir in v.entries)
  {
    hide Matches, ValidName, StagingName, ValidSuffix;
  }

  lemma ActKeepsTidy(s: State, i: nat, choice: Choice, j: nat)
    requires i < |s.calls| && j < |s.calls| && Inv(s) && Tidy(s.entries, s.calls[j].name)
    ensures Tidy(Act1(s, i, choice).entries, s.calls[j].name)
  {
    var v := s.ViewOf(i);
    var r := SystemCall(v, i, choice);
    var name := s.calls[j].name;
    assert Local(s.entries, v.me) && Tidy(s.entries, name);
    CallTouches(v, i, choice);
    if ValidName(name) && name in r.entries {
      if name == v.me.name {
        if r.me.published && !v.me.published {
          CallPublishes(v, i, choice);
        } else {
          BodyNeverExposes(v, i, choice);
          assert SameAt(s.entries, r.entries, name) || Touches(v.me, s.entries, r.entries, name);
          forall d | d in r.entries ensures !Matches(name, d) {
            assert SameAt(s.entries, r.entries, d) || Touches(v.me, s.entries, r.entries, d);
          }
        }
      } else if ValidName(v.me.name) {
        CallUnseenElsewhere(s, i, choice, name);
      } else {
        assert forall d :: SameAt(s.entries, r.entries, d);
      }
    }
    hide SystemCall, Local, Matches, ValidName, Shadows, Locked;
  }

  /** A call that does not publish leaves its own run name as it was. */
  lemma BodyNeverExposes(v: View, i: nat, choice: Choice)
    requires Local(v.entries, v.me)
    requires var r := SystemCall(v, i, choice); ValidName(v.me.name) && (r.me.published ==> v.me.published)
    ensures var r := SystemCall(v, i, choice); SameAt(v.entries, r.entries, v.me.name)
  {
    CallTouches(v, i, choice);
    CleanupMissesRuns(v.me.name, v.me.name);
    var r := SystemCall(v, i, choice);
    assert SameAt(v.entries, r.entries, v.me.name) || Touches(v.me, v.entries, r.entries, v.me.name);
    assert v.me.pc.Rename? ==> Matches(v.me.name, v.me.pc.dir);
    hide LockCall, PrepareCall, Matches, ValidName, IsStagingOf, OnlyStaging;
  }

  lemma ActKeepsLocked(s: State, i: nat, choice: Choice, j: nat)
    requires i < |s.calls| && j < |s.calls| && Locked(s, i) && Locked(s, j)
    ensures Locked(Act1(s, i, choice), j)
  {
    CallDiscipline(s.ViewOf(i), i, choice);
    hide SystemCall;
  }

  lemma ActKeepsInv(s: State, i: nat, choice: Choice)
    requires i < |s.calls| && Inv(s)
    ensures Inv(Act1(s, i, choice))
  {
    var s' := Act1(s, i, choice);
    CallDiscipline(s.ViewOf(i), i, choice);
    hide SystemCall, Local, Locked;
    assert Isolated(s'.calls) by {
      hide Shadows, ValidName;
      assert forall j | 0 <= j < |s.calls| :: s'.calls[j].name == s.calls[j].name;
    }
    forall j | 0 <= j < |s.calls| ensures Locked(s', j) && Local(s'.entries, s'.calls[j]) {
      ActKeepsLocked(s, i, choice, j);
      ActKeepsLocal(s, i, choice, j);
    }
    hide Isolated;
  }

  lemma KillKeepsInv(s: State, p: nat)
    requires Inv(s)
    ensures Inv(Kill(s, p))
  {
    var s' := Kill(s, p);
    forall i | 0 <= i < |s'.calls| ensures Locked(s', i) {
      assert Locked(s, i);
    }
    forall i | 0 <= i < |s'.calls| ensures Local(s'.entries, s'.calls[i]) {
      assert Local(s.entries, s.calls[i]);
    }
    hide Matches, ValidName, Shadows, OnlyStaging, IsStagingOf;
  }

  lemma StepKeepsInv(s: State, e: Event)
    requires Inv(s)
    ensures Inv(Step(s, e))
  {
    match e
    case Die(p) => KillKeepsInv(s, p);
    case Act(i, choice) => if i < |s.calls| { ActKeepsInv(s, i, choice); }
  }

  /** The invariant holds in every reachable state. */
  lemma {:induction false} Reachable(s0: State, events: seq<Event>)
    requires Init(s0) && Isolated(s0.calls)
    ensures Inv(Run(s0, events))
  {
    if events != [] {
      Reachable(s0, events[..|events| - 1]);
      StepKeepsInv(Run(s0, events[..|events| - 1]), events[|events| - 1]);
    }
    hide Step;
  }

  lemma {:induction false} StaysTidy(s0: State, events: seq<Event>, i: nat)
    requires Init(s0) && Isolated(s0.calls) && i < |s0.calls| && Tidy(s0.entries, s0.calls[i].name)
    ensures var s := Run(s0, events);
            i < |s.calls| && s.calls[i].name == s0.calls[i].name && Tidy(s.entries, s.calls[i].name)
  {
    if events != [] {
      var before, e := Run(s0, events[..|events| - 1]), events[|events| - 1];
      StaysTidy(s0, events[..|events| - 1], i);
      Reachable(s0, events[..|events| - 1]);
      hide Tidy, Inv;
      StepKeepsCall(before, e, i);
      if e.Act? && e.call < |before.calls| {
        ActKeepsTidy(before, e.call, e.choice, i);
      }
    }
    hide SystemCall;
  }

  lemma StepKeepsCall(s: State, e: Event, i: nat)
    requires i < |s.calls|
    ensures var s' := Step(s, e);
            && |s'.calls| == |s.calls| && s'.calls[i].name == s.calls[i].name && s'.calls[i].bundle == s.calls[i].bundle
            && (s.calls[i].published ==> s'.calls[i].published)
  {
    if e.Act? && e.call < |s.calls| {
      CallDiscipline(s.ViewOf(e.call), e.call, e.choice);
      PublishedFlag(s.ViewOf(e.call), e.call, e.choice);
    }
    hide SystemCall;
  }

  // ------------------------------------------------- what holds for any run names

  /** What every call keeps to, whatever the others are called and do. */
  predicate Tame(me: Call) {
    && (me.Prepares() || me.Staged() || me.published ==> ValidName(me.name))
    && (me.pc.Recheck? || me.pc.ThreadLock? || me.pc.FileLock? ==> ValidName(me.name))
    && (me.pc.Sweep? ==> forall d | d in me.pc.todo :: Matches(me.name, d))
    && (me.Staged() ==> Matches(me.name, me.pc.dir))
    && (me.pc == FileUnlock(true) || me.pc == ThreadUnlock(true) || me.pc == Returned ==> me.published)
    && (me.published ==> !me.InBody() && !me.pc.Validate? && !me.pc.ThreadLock? && !me.pc.FileLock?)
  }

  ghost predicate OnePublisher(s: State, i: nat, j: nat)
    requires i < |s.calls| && j < |s.calls|
  {
    s.calls[i].published && s.calls[j].published && s.calls[i].name == s.calls[j].name ==> i == j
  }

  ghost predicate Loose(s: State) {
    && (forall i | 0 <= i < |s.calls| :: Tame(s.calls[i]) && (s.calls[i].published ==> s.calls[i].name in s.entries))
    && (forall i, j | 0 <= i < |s.calls| && 0 <= j < |s.calls| :: OnePublisher(s, i, j))
  }

  /** Run names keep their entries, and a call publishes only where there is none. */
  ghost predicate Respects(v: View, r: View) {
    && (forall d | ValidName(d) && d in v.entries :: d in r.entries && r.entries[d] == v.entries[d])
    && (r.me.published && !v.me.published ==> v.me.name !in v.entries && v.me.name in r.entries)
  }

  lemma LockCallTame(v: View, i: nat, ok: bool)
    requires Tame(v.me) && !v.me.Prepares() && !v.me.Staged()
    ensures var r := LockCall(v, i, ok); Tame(r.me) && Respects(v, r)
  {
    hide ValidName, Matches;
    match v.me.pc
    case Validate =>
    case FileLock =>
    case Recheck =>
    case FileUnlock(_) =>
    case _ =>
  }

  lemma PrepareCallTame(v: View, choice: Choice)
    requires Tame(v.me) && v.me.Prepares()
    ensures var r := PrepareCall(v, choice); Tame(r.me) && Respects(v, r)
  {
    forall d: string | ValidName(d) ensures !Matches(v.me.name, d) { CleanupMissesRuns(v.me.name, d); }
    forall suffix ensures Matches(v.me.name, StagingName(v.me.name, suffix)) {}
    hide ValidName, Matches, StagingName, ValidSuffix;
  }

  lemma StagedCallTame(v: View, ok: bool)
    requires Tame(v.me) && v.me.Staged()
    ensures var r := StagedCall(v, ok); Tame(r.me) && Respects(v, r)
  {
    forall d: string | ValidName(d) ensures !Matches(v.me.name, d) { CleanupMissesRuns(v.me.name, d); }
    hide ValidName, Matches, StagingName, ValidSuffix;
  }

  lemma CallTame(v: View, i: nat, choice: Choice)
    requires Tame(v.me)
    ensures var r := SystemCall(v, i, choice); Tame(r.me) && Respects(v, r)
  {
    hide LockCall, PrepareCall, StagedCall, Tame, Respects;
    if v.me.Prepares() {
      PrepareCallTame(v, choice);
    } else if v.me.Staged() {
      StagedCallTame(v, choice.Proceed?);
    } else {
      LockCallTame(v, i, choice.Proceed?);
    }
  }

  lemma PublishedMeansValid(me: Call)
    requires Tame(me) && (me.published || me.pc == Returned)
    ensures me.published && ValidName(me.name)
  {
    hide ValidName, Matches;
  }

  lemma ActKeepsLoose(s: State, i: nat, choice: Choice)
    requires i < |s.calls| && Loose(s)
    ensures Loose(Act1(s, i, choice))
    ensures Respects(s.ViewOf(i), s.ViewOf(i).(entries := Act1(s, i, choice).entries))
  {
    var v := s.ViewOf(i);
    var r := SystemCall(v, i, choice);
    CallTame(v, i, choice);
    CallDiscipline(v, i, choice);
    PublishedFlag(v, i, choice);
    forall j | 0 <= j < |s.calls| && s.calls[j].published
      ensures ValidName(s.calls[j].name) && s.calls[j].name in r.entries
    {
      PublishedMeansValid(s.calls[j]);
    }
    hide SystemCall, Tame, ValidName;
    forall a, b | 0 <= a < |s.calls| && 0 <= b < |s.calls| ensures OnePublisher(Act1(s, i, choice), a, b) {
      assert OnePublisher(s, a, b);
    }
  }

  lemma StepKeepsLoose(s: State, e: Event, d: string)
    requires Loose(s)
    ensures Loose(Step(s, e))
    ensures ValidName(d) && d in s.entries ==> d in Step(s, e).entries && Step(s, e).entries[d] == s.entries[d]
  {
    match e
    case Die(p) =>
      forall a, b | 0 <= a < |s.calls| && 0 <= b < |s.calls| ensures OnePublisher(Step(s, e), a, b) {
        assert OnePublisher(s, a, b);
      }
      hide ValidName, Matches;
    case Act(i, choice) =>
      hide Act1, Loose, ValidName;
      if i < |s.calls| { ActKeepsLoose(s, i, choice); }
  }

  lemma {:induction false} AlwaysLoose(s0: State, events: seq<Event>)
    requires Init(s0)
    ensures Loose(Run(s0, events))
  {
    if events != [] {
      AlwaysLoose(s0, events[..|events| - 1]);
      StepKeepsLoose(Run(s0, events[..|events| - 1]), events[|events| - 1], "");
      hide Step, Loose;
    }
  }

  // ------------------------------------------------------------ main theorems

  /** Whatever the calls are named and whatever the directory holds: of the calls on one run name at
      most one ever publishes, and only such a call returns success. */
  lemma AtMostOneSucceeds(s0: State, events: seq<Event>, i: nat, j: nat)
    requires Init(s0)
    requires var s := Run(s0, events);
             && i < |s.calls| && j < |s.calls| && s.calls[i].name == s.calls[j].name
             && (s.calls[i].published || s.calls[i].pc == Returned)
             && (s.calls[j].published || s.calls[j].pc == Returned)
    ensures i == j && Run(s0, events).calls[i].published
  {
    AlwaysLoose(s0, events);
    var s := Run(s0, events);
    PublishedMeansValid(s.calls[i]);
    PublishedMeansValid(s.calls[j]);
    hide Tame, ValidName;
    assert OnePublisher(s, i, j);
  }

  /** Whatever the calls are named: an entry under a valid run name is never removed or altered. */
  lemma {:induction false} RunsAreNeverTouched(s0: State, events: seq<Event>, more: seq<Event>, name: string)
    requires Init(s0) && ValidName(name) && name in Run(s0, events).entries
    ensures name in Run(s0, events + more).entries
    ensures Run(s0, events + more).entries[name] == Run(s0, events).entries[name]
  {
    hide Init, Step, ValidName, Loose;
    if more == [] {
      assert events + more == events;
    } else {
      var before := more[..|more| - 1];
      assert (events + more)[..|events + more| - 1] == events + before;
      RunsAreNeverTouched(s0, events, before, name);
      AlwaysLoose(s0, events + before);
      StepKeepsLoose(Run(s0, events + before), more[|more| - 1], name);
    }
  }

  /** Whatever the calls are named: what a call has published stays as it was published. */
  lemma PublishedPersists(s0: State, events: seq<Event>, more: seq<Event>, i: nat)
    requires Init(s0)
    requires var s := Run(s0, events); i < |s.calls| && s.calls[i].published
    ensures var s := Run(s0, events); var s' := Run(s0, events + more); var name := s.calls[i].name;
            && i < |s'.calls| && s'.calls[i].published && s'.calls[i].name == name
            && s'.calls[i].bundle == s.calls[i].bundle
            && name in s.entries && name in s'.entries && s'.entries[name] == s.entries[name]
  {
    AlwaysLoose(s0, events);
    var name := Run(s0, events).calls[i].name;
    PublishedMeansValid(Run(s0, events).calls[i]);
    hide Init, ValidName, Tame;
    RunsAreNeverTouched(s0, events, more, name);
    CallPersists(s0, events, more, i);
  }

  lemma {:induction false} CallPersists(s0: State, events: seq<Event>, more: seq<Event>, i: nat)
    requires i < |Run(s0, events).calls|
    ensures var me := Run(s0, events).calls[i]; var s' := Run(s0, events + more);
            && i < |s'.calls| && s'.calls[i].name == me.name && s'.calls[i].bundle == me.bundle
            && (me.published ==> s'.calls[i].published)
  {
    hide Step;
    if more == [] {
      assert events + more == events;
    } else {
      var before := more[..|more| - 1];
      assert (events + more)[..|events + more| - 1] == events + before;
      CallPersists(s0, events, before, i);
      StepKeepsCall(Run(s0, events + before), more[|more| - 1], i);
    }
  }

  /** With isolated names, what is published is the complete bundle of the call that published it. */
  lemma PublishedIsComplete(s0: State, events: seq<Event>, i: nat)
    requires Init(s0) && Isolated(s0.calls)
    requires var s := Run(s0, events); i < |s.calls| && s.calls[i].published
    ensures var s := Run(s0, events); var me := s.calls[i];
            me.name in s.entries && s.entries[me.name] == Folder(me.bundle)
  {
    Reachable(s0, events);
    assert Local(Run(s0, events).entries, Run(s0, events).calls[i]);
    hide Matches, ValidName;
  }

  /** Once the output of a run exists, no staging directory of that run remains. */
  lemma NoStagingBesideOutput(s0: State, events: seq<Event>, i: nat, d: string)
    requires Init(s0) && Isolated(s0.calls) && i < |s0.calls| && Tidy(s0.entries, s0.calls[i].name)
    requires ValidName(s0.calls[i].name)
    requires var s := Run(s0, events); s0.calls[i].name in s.entries && d in s.entries
    ensures !Matches(s0.calls[i].name, d)
  {
    StaysTidy(s0, events, i);
    hide Matches, ValidName;
  }

  /** No step of another call, sweep included, alters the staging directory of a live call. */
  lemma LiveStagingIsSafe(s0: State, events: seq<Event>, i: nat, choice: Choice, j: nat)
    requires Init(s0) && Isolated(s0.calls)
    requires var s := Run(s0, events); i < |s.calls| && j < |s.calls| && i != j && s.calls[j].Staged()
    ensures var s := Run(s0, events); var dir := s.calls[j].pc.dir;
            && dir in s.entries
            && SameAt(s.entries, Act1(s, i, choice).entries, dir)
  {
    Reachable(s0, events);
    var s := Run(s0, events);
    var v, you := s.ViewOf(i), s.calls[j];
    var now := SystemCall(v, i, choice).entries;
    assert Local(s.entries, v.me) && Local(s.entries, you) && Locked(s, i) && Locked(s, j);
    CallTouches(v, i, choice);
    assert Matches(you.name, you.pc.dir);
    assert SameAt(s.entries, now, you.pc.dir) || Touches(v.me, s.entries, now, you.pc.dir);
    if Touches(v.me, s.entries, now, you.pc.dir) && v.me.name != you.name {
      OtherRunUntouched(v.me, s.entries, now, you.name, you.pc.dir);
    }
    hide SystemCall, Matches, ValidName, Shadows, OnlyStaging, IsStagingOf, Tidy;
  }

  lemma RunSnoc(s0: State, events: seq<Event>, e: Event)
    ensures Run(s0, events + [e]) == Step(Run(s0, events), e)
  {
    assert (events + [e])[..|events + [e]| - 1] == events;
  }

  /** Extends a run by one step whose outcome is known. */
  lemma Advance(s0: State, es: seq<Event>, s: State, i: nat, choice: Choice, next: View)
      returns (es': seq<Event>, s': State)
    requires s == Run(s0, es) && i < |s.calls| && SystemCall(s.ViewOf(i), i, choice) == next
    ensures s' == Run(s0, es') && s' == s.After(i, next)
  {
    es' := es + [Act(i, choice)];
    RunSnoc(s0, es, Act(i, choice));
    s' := Run(s0, es');
    hide SystemCall;
  }

  /** An undisturbed call reaches the glob of its cleanup. */
  lemma ReachList(s0: State, es: seq<Event>, s: State, i: nat) returns (es': seq<Event>, s': State)
    requires s == Run(s0, es) && i < |s.calls| && s.calls[i].pc == Validate
    requires ValidName(s.calls[i].name) && s.calls[i].name !in s.entries
    requires (s.calls[i].process, s.calls[i].name) !in s.threadLocks && s.calls[i].name !in s.fileLocks
    ensures s' == Run(s0, es')
    ensures var me := s.calls[i];
            s' == State(s.entries, s.calls[i := me.At(List)],
                        s.threadLocks[(me.process, me.name) := i], s.fileLocks[me.name := i])
  {
    hide ValidName, PrepareCall, StagedCall;
    es', s' := ReachLock(s0, es, s, i);
    var v := s'.ViewOf(i).To(Recheck).(fileLocks := s.fileLocks[s.calls[i].name := i]);
    es', s' := Advance(s0, es', s', i, Proceed(""), v);
    es', s' := Advance(s0, es', s', i, Proceed(""), v.To(List));
  }

  lemma ReachLock(s0: State, es: seq<Event>, s: State, i: nat) returns (es': seq<Event>, s': State)
    requires s == Run(s0, es) && i < |s.calls| && s.calls[i].pc == Validate
    requires ValidName(s.calls[i].name) && s.calls[i].name !in s.entries
    requires (s.calls[i].process, s.calls[i].name) !in s.threadLocks
    ensures s' == Run(s0, es')
    ensures var me := s.calls[i];
            s' == State(s.entries, s.calls[i := me.At(FileLock)],
                        s.threadLocks[(me.process, me.name) := i], s.fileLocks)
  {
    hide ValidName, PrepareCall, StagedCall;
    var v := s.ViewOf(i);
    es', s' := Advance(s0, es, s, i, Proceed(""), v.To(ThreadLock));
    v := v.To(FileLock).(threadLocks := s.threadLocks[(v.me.process, v.me.name) := i]);
    es', s' := Advance(s0, es', s', i, Proceed(""), v);
  }

  /** With nothing to sweep, the call goes on to build in a fresh staging directory. */
  lemma ReachBuild(s0: State, es: seq<Event>, s: State, i: nat, suffix: string) returns (es': seq<Event>, s': State)
    requires s == Run(s0, es) && i < |s.calls| && s.calls[i].pc == List
    requires ValidSuffix(suffix) && s.entries == map[]
    ensures s' == Run(s0, es')
    ensures var dir := StagingName(s.calls[i].name, suffix);
            s' == s.After(i, s.ViewOf(i).Put(dir, Folder([])).To(Build(dir, 0)))
  {
    hide ValidSuffix, Matches, StagingName, SystemCall;
    var v := s.ViewOf(i);
    assert (set d | d in s.entries && Matches(v.me.name, d)) == {};
    ListStep(v, i, suffix);
    es', s' := Advance(s0, es, s, i, Proceed(suffix), v.To(Sweep({})));
    SweptStep(v.To(Sweep({})), i, suffix);
    es', s' := Advance(s0, es', s', i, Proceed(suffix), v.To(MakeStaging));
    StagingStep(v.To(MakeStaging), i, suffix);
    var dir := StagingName(v.me.name, suffix);
    es', s' := Advance(s0, es', s', i, Proceed(suffix), v.To(MakeStaging).Put(dir, Folder([])).To(Build(dir, 0)));
  }

  lemma ListStep(v: View, i: nat, pick: string)
    requires v.me.pc == List
    ensures SystemCall(v, i, Proceed(pick)) == v.To(Sweep(set d | d in v.entries && Matches(v.me.name, d)))
  {}

  lemma SweptStep(v: View, i: nat, pick: string)
    requires v.me.pc == Sweep({})
    ensures SystemCall(v, i, Proceed(pick)) == v.To(MakeStaging)
  {}

  lemma StagingStep(v: View, i: nat, pick: string)
    requires v.me.pc == MakeStaging && ValidSuffix(pick) && StagingName(v.me.name, pick) !in v.entries
    ensures var dir := StagingName(v.me.name, pick);
            SystemCall(v, i, Proceed(pick)) == v.Put(dir, Folder([])).To(Build(dir, 0))
  {
    hide ValidSuffix, StagingName;
  }

  /** One sweep step on an emptied directory takes it away. */
  lemma SweepStep(s: State, i: nat, d: string)
    requires i < |s.calls| && s.calls[i].pc == Sweep({d}) && d in s.entries && s.entries[d] == Folder([])
    ensures d !in Step(s, Act(i, Proceed(d))).entries
  {}

  /** A call on `b` at work in its staging directory while a call on `a`, whose staging prefix begins
      `b`, is about to sweep it away. */
  lemma ReachSweep(a: string, b: string, es: seq<Event>, s0: State, s: State)
      returns (es': seq<Event>, s': State)
    requires ValidName(a) && ValidName(b) && Shadows(a, b) && s == Run(s0, es) && |s.calls| == 2
    requires s.calls[1] == Call(1, a, [], Validate, false) && s.calls[0].name == b && s.calls[0].process == 0
    requires s.threadLocks.Keys == {(0, b)} && s.fileLocks.Keys == {b} && s.entries.Keys == {StagingName(b, "x")}
    ensures s' == Run(s0, es') && s'.entries == s.entries
    ensures s'.calls == [s.calls[0], s.calls[1].At(Sweep({StagingName(b, "x")}))]
    ensures s'.threadLocks == s.threadLocks[(1, a) := 1] && s'.fileLocks == s.fileLocks[a := 1]
  {
    var dir := StagingName(b, "x");
    assert Matches(a, dir) && a != b && a != dir by {
      assert ValidSuffix("x");
      CleanupReachesStaging(a, b, "x");
      CleanupMissesRuns(a, a);
      assert |b| > |a|;
    }
    hide ValidName, ValidSuffix, Matches, StagingName, SystemCall, Shadows;
    es', s' := ReachList(s0, es, s, 1);
    assert (set d | d in s'.entries && Matches(a, d)) == {dir};
    ListStep(s'.ViewOf(1), 1, dir);
    es', s' := Advance(s0, es', s', 1, Proceed(dir), s'.ViewOf(1).To(Sweep({dir})));
  }

  /** The first state: two calls, nothing in the directory. */
  function Pair(a: string, b: string, bundle: seq<Item>): State {
    State(map[], [Call(0, b, bundle, Validate, false), Call(1, a, [], Validate, false)], map[], map[])
  }

  lemma ReachStaging(a: string, b: string, bundle: seq<Item>) returns (es: seq<Event>, s: State)
    requires ValidName(a) && ValidName(b) && Shadows(a, b)
    ensures s == Run(Pair(a, b, bundle), es)
    ensures var dir := StagingName(b, "x");
            s == State(map[dir := Folder([])],
                [Call(0, b, bundle, Build(dir, 0), false), Call(1, a, [], Validate, false)],
                       map[(0, b) := 0], map[b := 0])
  {
    hide ValidName, Matches, StagingName, SystemCall, Shadows;
    var s0 := Pair(a, b, bundle);
    es, s := ReachList(s0, [], s0, 0);
    assert ValidSuffix("x");
    hide ValidSuffix;
    es, s := ReachBuild(s0, es, s, 0, "x");
  }

  /** Isolation is needed, for every pair of names that breaks it: from an empty directory, a call on
      the longer name loses the staging directory that it is building in. */
  lemma ShadowedRunLosesItsStaging(a: string, b: string, bundle: seq<Item>) returns (events: seq<Event>, e: Event)
    requires ValidName(a) && ValidName(b) && Shadows(a, b)
    ensures var s := Run(Pair(a, b, bundle), events); var dir := StagingName(b, "x");
            && Init(Pair(a, b, bundle)) && |s.calls| == 2 && s.calls[0].pc == Build(dir, 0) && dir in s.entries
            && e.Act? && e.call == 1 && dir !in Step(s, e).entries
  {
    var s: State;
    PairStarts(a, b, bundle);
    hide ValidName, StagingName, SystemCall, Shadows, Init;
    events, s := ReachStaging(a, b, bundle);
    hide Pair, Run;
    events, s := ReachSweep(a, b, events, Pair(a, b, bundle), s);
    SweepStep(s, 1, StagingName(b, "x"));
    hide Step;
    e := Act(1, Proceed(StagingName(b, "x")));
  }

  /** Call 0 has written its one item and goes on to publish. */
  lemma ReachRename(s0: State, es: seq<Event>, s: State, dir: string, item: Item) returns (es': seq<Event>, s': State)
    requires s == Run(s0, es) && |s.calls| > 0 && s.calls[0].pc == Build(dir, 0) && s.calls[0].bundle == [item]
    requires dir in s.entries && s.entries[dir] == Folder([])
    ensures s' == Run(s0, es') && s' == s.After(0, s.ViewOf(0).Put(dir, Folder([item])).To(Rename(dir)))
  {
    hide LockCall, PrepareCall;
    assert [] + [item] == [item];
    var v := s.ViewOf(0).Put(dir, Folder([item])).To(Build(dir, 1));
    es', s' := Advance(s0, es, s, 0, Proceed(""), v);
    es', s' := Advance(s0, es', s', 0, Proceed(""), v.To(Rename(dir)));
  }

  /** ... and, when the sweep gets through part of it, returns success for a bundle that is not there. */
  lemma ShadowedRunPublishesLess(a: string, b: string, item: Item) returns (events: seq<Event>)
    requires ValidName(a) && ValidName(b) && Shadows(a, b)
    ensures var s := Run(Pair(a, b, [item]), events);
            && Init(Pair(a, b, [item])) && |s.calls| == 2 && s.calls[0].published && s.calls[0].pc == Returned
            && s.calls[0].bundle == [item] && b in s.entries && s.entries[b] == Folder([])
  {
    var s0 := Pair(a, b, [item]);
    var s: State;
    StagingIsNoRun(b);
    PairStarts(a, b, [item]);
    hide ValidName, StagingName, Shadows, Init;
    events, s := ReachStaging(a, b, [item]);
    hide Pair, Step;
    events, s := ReachRename(s0, events, s, StagingName(b, "x"), item);
    events, s := ReachEmptied(a, b, item, events, s0, s);
    events, s := FinishRename(s0, events, s, StagingName(b, "x"));
  }

  lemma PairStarts(a: string, b: string, bundle: seq<Item>)
    ensures Init(Pair(a, b, bundle))
  {}

  /** The sweep of `a` takes the one item away just before `b` publishes. */
  lemma ReachEmptied(a: string, b: string, item: Item, es: seq<Event>, s0: State, s: State)
      returns (es': seq<Event>, s': State)
    requires ValidName(a) && ValidName(b) && Shadows(a, b) && s == Run(s0, es)
    requires var dir := StagingName(b, "x");
             s == State(map[dir := Folder([item])],
                 [Call(0, b, [item], Rename(dir), false), Call(1, a, [], Validate, false)],
                        map[(0, b) := 0], map[b := 0])
    ensures s' == Run(s0, es') && |s'.calls| == 2 && s'.calls[0] == s.calls[0]
    ensures s'.entries == map[StagingName(b, "x") := Folder([])]
  {
    var dir := StagingName(b, "x");
    hide ValidName, StagingName, Shadows, SystemCall, Run;
    es', s' := ReachSweep(a, b, es, s0, s);
    ChipStep(s', 1, dir, item);
    es', s' := Advance(s0, es', s', 1, Proceed(dir), s'.ViewOf(1).Put(dir, Folder([])));
  }

  lemma StagingIsNoRun(b: string)
    requires ValidName(b)
    ensures StagingName(b, "x") != b
  {
    CleanupMissesRuns(b, b);
    assert Matches(b, StagingName(b, "x"));
  }

  lemma ChipStep(s: State, i: nat, d: string, item: Item)
    requires i < |s.calls| && s.calls[i].pc == Sweep({d}) && d in s.entries && s.entries[d] == Folder([item])
    ensures SystemCall(s.ViewOf(i), i, Proceed(d)) == s.ViewOf(i).Put(d, Folder([]))
  {
    assert [item][..0] == [];
    hide Matches;
  }

  /** Publishing and leaving, for call 0. */
  lemma FinishRename(s0: State, es: seq<Event>, s: State, dir: string) returns (es': seq<Event>, s': State)
    requires s == Run(s0, es) && |s.calls| > 0 && s.calls[0].pc == Rename(dir) && dir in s.entries
    requires s.calls[0].name !in s.entries && s.calls[0].name != dir
    ensures s' == Run(s0, es') && |s'.calls| == |s.calls|
    ensures var me := s.calls[0]; s'.calls[0] == me.At(Returned).(published := true)
    ensures s'.entries == (s.entries - {dir})[s.calls[0].name := s.entries[dir]]
  {
    hide LockCall, PrepareCall;
    var me, v := s.calls[0], s.ViewOf(0);
    var r := v.(entries := (v.entries - {dir})[me.name := v.entries[dir]],
        me := me.At(FileUnlock(true)).(published := true));
    es', s' := Advance(s0, es, s, 0, Proceed(""), r);
    es', s' := ReachReturn(s0, es', s');
  }

  lemma ReachReturn(s0: State, es: seq<Event>, s: State) returns (es': seq<Event>, s': State)
    requires s == Run(s0, es) && |s.calls| > 0 && s.calls[0].pc == FileUnlock(true)
    ensures s' == Run(s0, es') && s'.entries == s.entries && s'.calls == s.calls[0 := s.calls[0].At(Returned)]
  {
    hide PrepareCall, StagedCall, ValidName;
    var v := s.ViewOf(0);
    v := v.To(ThreadUnlock(true)).(fileLocks := v.fileLocks - {v.me.name});
    es', s' := Advance(s0, es, s, 0, Proceed(""), v);
    v := v.To(Returned).(threadLocks := v.threadLocks - {(v.me.process, v.me.name)});
    es', s' := Advance(s0, es', s', 0, Proceed(""), v);
  }
}
