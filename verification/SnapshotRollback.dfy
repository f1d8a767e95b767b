/** What a failed `install_snapshot` call leaves behind, over all interleavings: at the end of a lock
    tenure the two files of the target have the contents that they had at its start. */
module SnapshotRollback {
  import opened Common
  import opened SnapshotProtocol

  /** The file exists in both or in neither, with the same bytes. */
  predicate SameContent(was: map<Path, File>, now: map<Path, File>, path: Path) {
    (path in was <==> path in now) && (path in was ==> was[path].data == now[path].data)
  }

  /** The snapshot file, compared with the moment at which the lock was taken. */
  predicate SnapshotSince(was: map<Path, File>, now: map<Path, File>, me: Installer) {
    var path := Path(Snapshot, me.job.stem);
    if me.Publishing(Snapshot) || (me.Installing() && me.created) then path !in was else SameContent(was, now, path)
  }

  predicate SidecarSince(was: map<Path, File>, now: map<Path, File>, me: Installer) {
    var path := Path(Sidecar, me.job.stem);
    if me.Publishing(Sidecar) || ((me.pc.BuildResult? || me.pc == Undo(Sidecar)) && me.sidecarCreated) then path !in was
    else SameContent(was, now, path)
  }

  /** Metadata was added to a snapshot that was there. */
  predicate LeftMetadata(was: map<Path, File>, now: map<Path, File>, me: Installer) {
    && me.sidecarCreated && !me.created
    && Path(Snapshot, me.job.stem) in was && SameContent(was, now, Path(Snapshot, me.job.stem))
    && Path(Sidecar, me.job.stem) !in was && Path(Sidecar, me.job.stem) in now
  }

  predicate Restored(was: map<Path, File>, now: map<Path, File>, me: Installer) {
    SameContent(was, now, Path(Snapshot, me.job.stem)) && SameContent(was, now, Path(Sidecar, me.job.stem))
  }

  /** What holds at every point of a tenure. */
  predicate Since(was: map<Path, File>, now: map<Path, File>, me: Installer) {
    && (me.InBody() ==> SnapshotSince(was, now, me) && SidecarSince(was, now, me))
    && (me.pc == FileUnlock(false) ==> Restored(was, now, me) || LeftMetadata(was, now, me))
  }

  predicate InTenure(me: Installer) { me.InBody() || me.pc.FileUnlock? }

  /** A removal of a file that raises. */
  predicate RemovalFails(me: Installer, choice: Choice) {
    choice.Fault? && (me.pc.Undo? || (me.pc.Publish? && me.pc.step.Discard?))
  }

  lemma CreatingSince(c: Codec, v: View, choice: Choice, was: map<Path, File>)
    requires v.me.pc.Publish? && v.me.pc.step.Create?
    requires Local(c, v.files, v.me) && Since(was, v.files, v.me)
    ensures var r := PublishCall(c, v, v.me.pc.kind, v.me.pc.step, choice); InTenure(r.me) && Since(was, r.files, r.me)
  {
    LocalFlagsHere(c, v.files, v.me);
    hide Local;
  }

  lemma WritingSince(c: Codec, v: View, choice: Choice, was: map<Path, File>)
    requires v.me.pc.Publish? && v.me.pc.step.Write?
    requires Local(c, v.files, v.me) && Since(was, v.files, v.me)
    ensures var r := PublishCall(c, v, v.me.pc.kind, v.me.pc.step, choice); InTenure(r.me) && Since(was, r.files, r.me)
  {
    LocalFlagsHere(c, v.files, v.me);
    hide Local;
  }

  lemma FinishingSince(c: Codec, v: View, choice: Choice, was: map<Path, File>)
    requires v.me.pc.Publish? && !v.me.pc.step.Create? && !v.me.pc.step.Write? && !RemovalFails(v.me, choice)
    requires Local(c, v.files, v.me) && Since(was, v.files, v.me)
    ensures var r := PublishCall(c, v, v.me.pc.kind, v.me.pc.step, choice); InTenure(r.me) && Since(was, r.files, r.me)
  {
    LocalFlagsHere(c, v.files, v.me);
    hide Local;
  }

  lemma ReadingSince(c: Codec, v: View, ok: bool, was: map<Path, File>)
    requires v.me.pc.Adopt? && !v.me.pc.doing.Check? && Local(c, v.files, v.me) && Since(was, v.files, v.me)
    ensures var r := AdoptCall(c, v, v.me.pc.kind, v.me.pc.doing, ok); InTenure(r.me) && Since(was, r.files, r.me)
  {
    LocalFlagsHere(c, v.files, v.me);
    hide Local;
  }

  lemma CheckingSince(c: Codec, v: View, ok: bool, was: map<Path, File>)
    requires v.me.pc.Adopt? && v.me.pc.doing.Check? && Local(c, v.files, v.me) && Since(was, v.files, v.me)
    ensures var r := AdoptCall(c, v, v.me.pc.kind, v.me.pc.doing, ok); InTenure(r.me) && Since(was, r.files, r.me)
  {
    LocalFlagsHere(c, v.files, v.me);
    hide Local;
  }

  /** The flags of a call in its body, and what building the result starts from. */
  lemma LocalFlagsHere(c: Codec, files: map<Path, File>, me: Installer)
    requires Local(c, files, me)
    ensures me.created ==> me.Installing() || me.Leaving()
    ensures me.sidecarCreated ==> me.pc.BuildResult? || me.pc.Undo? || me.Leaving()
    ensures me.pc.Undo? ==> me.created && (me.pc.kind == Sidecar ==> me.sidecarCreated)
    ensures me.pc.BuildResult? ==> Path(Snapshot, me.job.stem) in files && Path(Sidecar, me.job.stem) in files
  {}

  lemma EndSince(c: Codec, v: View, i: nat, choice: Choice, was: map<Path, File>)
    requires (v.me.pc.BuildResult? || v.me.pc.Undo?) && !RemovalFails(v.me, choice)
    requires Local(c, v.files, v.me) && Since(was, v.files, v.me)
    ensures var r := SystemCall(c, v, i, choice); InTenure(r.me) && Since(was, r.files, r.me)
  {
    LocalFlagsHere(c, v.files, v.me);
    hide Local, PublishCall, AdoptCall, LockCall;
  }

  lemma CallSince(c: Codec, v: View, i: nat, choice: Choice, was: map<Path, File>)
    requires v.me.InBody() && !RemovalFails(v.me, choice)
    requires Local(c, v.files, v.me) && Since(was, v.files, v.me)
    ensures var r := SystemCall(c, v, i, choice); InTenure(r.me) && Since(was, r.files, r.me)
  {
    hide Local, Since, PublishCall, AdoptCall, LockCall;
    if v.me.pc.Publish? {
      if v.me.pc.step.Create? {
        CreatingSince(c, v, choice, was);
      } else if v.me.pc.step.Write? {
        WritingSince(c, v, choice, was);
      } else {
        FinishingSince(c, v, choice, was);
      }
    } else if v.me.pc.Adopt? {
      if v.me.pc.doing.Check? {
        CheckingSince(c, v, choice.Proceed?, was);
      } else {
        ReadingSince(c, v, choice.Proceed?, was);
      }
    } else {
      EndSince(c, v, i, choice, was);
    }
  }

  /** Nobody else touches the files of a target in a tenure. */
  lemma OthersKeepTarget(c: Codec, s: State, e: Event, j: nat, kind: Kind)
    requires Inv(c, s) && j < |s.installers| && s.installers[j].HoldsFileLock()
    requires e.Act? ==> e.installer != j
    ensures SameAt(s.files, Step(c, s, e).files, Path(kind, s.installers[j].job.stem))
  {
    if e.Act? && e.installer < |s.installers| {
      var v, path := s.ViewOf(e.installer), Path(kind, s.installers[j].job.stem);
      assert Local(c, s.files, v.me) && Locked(s, e.installer) && Locked(s, j);
      CallTouches(c, v, e.installer, e.choice);
      var r := SystemCall(c, v, e.installer, e.choice);
      assert SameAt(s.files, r.files, path) || Touches(v.me, s.files, r.files, path);
    }
    hide SystemCall, Local;
  }

  lemma SinceIsOnTarget(was: map<Path, File>, old_: map<Path, File>, new_: map<Path, File>, me: Installer)
    requires Since(was, old_, me)
    requires SameAt(old_, new_, Path(Snapshot, me.job.stem)) && SameAt(old_, new_, Path(Sidecar, me.job.stem))
    ensures Since(was, new_, me)
  {}

  /** One event later, still in the tenure. */
  lemma StepSince(c: Codec, s: State, e: Event, j: nat, was: map<Path, File>)
    requires Inv(c, s) && j < |s.installers| && InTenure(s.installers[j]) && Since(was, s.files, s.installers[j])
    requires j < |Step(c, s, e).installers| && InTenure(Step(c, s, e).installers[j])
    requires e.Act? && e.installer == j ==> !RemovalFails(s.installers[j], e.choice)
    ensures Since(was, Step(c, s, e).files, Step(c, s, e).installers[j])
  {
    assert Local(c, s.files, s.installers[j]);
    var me := s.installers[j];
    hide Local, Inv, Since, RemovalFails;
    if e.Act? && e.installer == j {
      if me.InBody() {
        CallSince(c, s.ViewOf(j), j, e.choice, was);
      } else {
        LeavesTenure(c, s.ViewOf(j), j, e.choice);
        assert false;
      }
    } else {
      OthersKeepTarget(c, s, e, j, Snapshot);
      OthersKeepTarget(c, s, e, j, Sidecar);
      SinceIsOnTarget(was, s.files, Step(c, s, e).files, me);
      SameCall(c, s, e, j);
    }
    hide SystemCall;
  }

  lemma LeavesTenure(c: Codec, v: View, i: nat, choice: Choice)
    requires v.me.pc.FileUnlock?
    ensures !InTenure(SystemCall(c, v, i, choice).me)
  {
    hide PublishCall, AdoptCall;
  }

  lemma SameCall(c: Codec, s: State, e: Event, j: nat)
    requires j < |s.installers| && (e.Act? ==> e.installer != j)
    requires j < |Step(c, s, e).installers| && InTenure(Step(c, s, e).installers[j])
    ensures Step(c, s, e).installers[j] == s.installers[j]
  {
    hide SystemCall;
  }

  // ------------------------------------------------------------- over a whole run

  function CallAt(c: Codec, s0: State, events: seq<Event>, m: nat, i: nat): Installer
    requires m <= |events| && i < |Run(c, s0, events[..m]).installers|
  {
    Run(c, s0, events[..m]).installers[i]
  }

  ghost predicate Exists(c: Codec, s0: State, events: seq<Event>, m: nat, i: nat)
    requires m <= |events|
  {
    i < |Run(c, s0, events[..m]).installers|
  }

  /** Call `i` takes the file lock in step `a`, keeps it up to state `k`, and none of its removals raises. */
  ghost predicate Tenure(c: Codec, s0: State, events: seq<Event>, a: nat, k: nat, i: nat) {
    && a < k <= |events|
    && Exists(c, s0, events, a, i) && CallAt(c, s0, events, a, i).pc == FileLock
    && (forall m: nat | a < m <= k :: Exists(c, s0, events, m, i) && InTenure(CallAt(c, s0, events, m, i)))
    && (forall m: nat | a < m < k && events[m].Act? && events[m].installer == i ::
          Exists(c, s0, events, m, i) && !RemovalFails(CallAt(c, s0, events, m, i), events[m].choice))
  }

  lemma TakingCall(c: Codec, v: View, i: nat, choice: Choice)
    requires v.me.pc == FileLock && InTenure(SystemCall(c, v, i, choice).me)
    ensures var r := SystemCall(c, v, i, choice); r.me == v.me.At(Publish(Snapshot, Create)) && r.files == v.files
  {
    hide PublishCall, AdoptCall;
  }

  lemma TakingSince(c: Codec, s: State, e: Event, i: nat)
    requires Inv(c, s) && i < |s.installers| && s.installers[i].pc == FileLock
    requires i < |Step(c, s, e).installers| && InTenure(Step(c, s, e).installers[i])
    ensures Since(s.files, Step(c, s, e).files, Step(c, s, e).installers[i])
  {
    assert Local(c, s.files, s.installers[i]);
    LocalFlagsHere(c, s.files, s.installers[i]);
    hide PublishCall, AdoptCall, Inv, Local, Kill;
    if e.Act? && e.installer == i {
      TakingCall(c, s.ViewOf(i), i, e.choice);
      hide SystemCall;
    }
    if !(e.Act? && e.installer == i) {
      SameCall(c, s, e, i);
      assert false;
    }
  }

  lemma {:induction false} TenureSince(c: Codec, s0: State, events: seq<Event>, a: nat, k: nat, i: nat)
    requires Init(s0) && c.RoundTrips() && Tenure(c, s0, events, a, k, i)
    ensures Exists(c, s0, events, k, i)
    ensures Since(Run(c, s0, events[..a]).files, Run(c, s0, events[..k]).files, CallAt(c, s0, events, k, i))
    decreases k
  {
    hide Init, Inv, Step, Since, InTenure, RemovalFails;
    assert events[..k][..k - 1] == events[..k - 1];
    var before := Run(c, s0, events[..k - 1]);
    Reachable(c, s0, events[..k - 1]);
    assert Exists(c, s0, events, k, i) && InTenure(CallAt(c, s0, events, k, i));
    if k == a + 1 {
      TakingSince(c, before, events[a], i);
    } else {
      TenureSince(c, s0, events, a, k - 1, i);
      assert Exists(c, s0, events, k - 1, i) && InTenure(CallAt(c, s0, events, k - 1, i));
      StepSince(c, before, events[k - 1], i, Run(c, s0, events[..a]).files);
    }
  }

  // ------------------------------------------------------ when something stays behind

  /** What the files say while it is on record whether building the result has raised. */
  predicate Told(was: map<Path, File>, now: map<Path, File>, me: Installer, raised: bool) {
    && (raised && me.InBody() ==> Path(Snapshot, me.job.stem) !in was)
    && (me.pc == FileUnlock(false) ==> (!Restored(was, now, me) <==> Repaired(was, me) && raised))
  }

  /** There was a snapshot, and no metadata. */
  predicate Repaired(was: map<Path, File>, me: Installer) {
    Path(Snapshot, me.job.stem) in was && Path(Sidecar, me.job.stem) !in was
  }

  predicate RaisesAtResult(me: Installer, choice: Choice) { me.pc.BuildResult? && choice.Fault? }

  lemma FlagsOnFailure(c: Codec, v: View, i: nat, choice: Choice)
    requires v.me.InBody() && !v.me.pc.BuildResult? && Local(c, v.files, v.me)
    ensures var r := SystemCall(c, v, i, choice);
            r.me.job == v.me.job && (r.me.pc == FileUnlock(false) ==> !r.me.sidecarCreated || r.me.created)
  {
    LocalFlagsHere(c, v.files, v.me);
    hide Local, LockCall;
  }

  lemma CallTells(c: Codec, v: View, i: nat, choice: Choice, was: map<Path, File>, raised: bool)
    requires v.me.InBody() && !RemovalFails(v.me, choice)
    requires Local(c, v.files, v.me) && Since(was, v.files, v.me) && Told(was, v.files, v.me, raised)
    ensures var r := SystemCall(c, v, i, choice); Told(was, r.files, r.me, raised || RaisesAtResult(v.me, choice))
  {
    CallSince(c, v, i, choice, was);
    LocalFlagsHere(c, v.files, v.me);
    hide Local, PublishCall, AdoptCall, LockCall;
    if !v.me.pc.BuildResult? {
      FlagsOnFailure(c, v, i, choice);
      hide SystemCall;
    }
  }

  lemma ToldIsOnTarget(was: map<Path, File>, old_: map<Path, File>, new_: map<Path, File>, me: Installer, raised: bool)
    requires Told(was, old_, me, raised)
    requires SameAt(old_, new_, Path(Snapshot, me.job.stem)) && SameAt(old_, new_, Path(Sidecar, me.job.stem))
    ensures Told(was, new_, me, raised)
  {}

  /** Event `m` of the run makes the building of call `i`'s result raise. */
  ghost predicate RaisedAt(c: Codec, s0: State, events: seq<Event>, i: nat, m: nat)
    requires m < |events|
  {
    && events[m].Act? && events[m].installer == i && Exists(c, s0, events, m, i)
    && RaisesAtResult(CallAt(c, s0, events, m, i), events[m].choice)
  }

  /** ... in one of the steps between state `a` and state `k`. */
  ghost predicate ResultRaised(c: Codec, s0: State, events: seq<Event>, a: nat, k: nat, i: nat)
    requires k <= |events|
  {
    exists m: nat | a < m < k :: RaisedAt(c, s0, events, i, m)
  }

  lemma StepTells(c: Codec, s: State, e: Event, j: nat, was: map<Path, File>, raised: bool)
    requires Inv(c, s) && j < |s.installers| && InTenure(s.installers[j])
    requires Since(was, s.files, s.installers[j]) && Told(was, s.files, s.installers[j], raised)
    requires j < |Step(c, s, e).installers| && InTenure(Step(c, s, e).installers[j])
    requires e.Act? && e.installer == j ==> !RemovalFails(s.installers[j], e.choice)
    ensures Told(was, Step(c, s, e).files, Step(c, s, e).installers[j],
                raised || (e.Act? && e.installer == j && RaisesAtResult(s.installers[j], e.choice)))
  {
    assert Local(c, s.files, s.installers[j]);
    var me := s.installers[j];
    hide Local, Inv, Since, Told, RemovalFails, RaisesAtResult;
    if e.Act? && e.installer == j {
      if me.InBody() {
        CallTells(c, s.ViewOf(j), j, e.choice, was, raised);
      } else {
        LeavesTenure(c, s.ViewOf(j), j, e.choice);
        assert false;
      }
    } else {
      OthersKeepTarget(c, s, e, j, Snapshot);
      OthersKeepTarget(c, s, e, j, Sidecar);
      ToldIsOnTarget(was, s.files, Step(c, s, e).files, me, raised);
      SameCall(c, s, e, j);
    }
    hide SystemCall;
  }

  lemma TakingTells(c: Codec, s: State, e: Event, i: nat)
    requires i < |s.installers| && s.installers[i].pc == FileLock
    requires i < |Step(c, s, e).installers| && InTenure(Step(c, s, e).installers[i])
    ensures Told(s.files, Step(c, s, e).files, Step(c, s, e).installers[i], false)
  {
    hide PublishCall, AdoptCall, Kill;
    if e.Act? && e.installer == i {
      TakingCall(c, s.ViewOf(i), i, e.choice);
      hide SystemCall;
    }
    if !(e.Act? && e.installer == i) {
      SameCall(c, s, e, i);
      assert false;
    }
  }

  lemma {:induction false} TenureTells(c: Codec, s0: State, events: seq<Event>, a: nat, k: nat, i: nat)
    requires Init(s0) && c.RoundTrips() && Tenure(c, s0, events, a, k, i)
    ensures Exists(c, s0, events, k, i)
    ensures Told(Run(c, s0, events[..a]).files, Run(c, s0, events[..k]).files, CallAt(c, s0, events, k, i),
                ResultRaised(c, s0, events, a, k, i))
    decreases k
  {
    hide Init, Inv, Step, Since, Told, InTenure, RemovalFails, RaisesAtResult;
    assert events[..k][..k - 1] == events[..k - 1];
    var before := Run(c, s0, events[..k - 1]);
    Reachable(c, s0, events[..k - 1]);
    assert Exists(c, s0, events, k, i) && InTenure(CallAt(c, s0, events, k, i));
    if k == a + 1 {
      TakingTells(c, before, events[a], i);
    } else {
      TenureSince(c, s0, events, a, k - 1, i);
      TenureTells(c, s0, events, a, k - 1, i);
      assert Exists(c, s0, events, k - 1, i) && InTenure(CallAt(c, s0, events, k - 1, i));
      StepTells(c, before, events[k - 1], i, Run(c, s0, events[..a]).files, ResultRaised(c, s0, events, a, k - 1, i));
      RaisedNext(c, s0, events, a, k, i);
    }
  }

  lemma RaisedNext(c: Codec, s0: State, events: seq<Event>, a: nat, k: nat, i: nat)
    requires a + 1 < k <= |events|
    ensures ResultRaised(c, s0, events, a, k, i) <==>
              ResultRaised(c, s0, events, a, k - 1, i) || RaisedAt(c, s0, events, i, k - 1)
  {
    hide RaisedAt;
  }

  /** Whatever the other calls do: a tenure that ends in failure with no removal having raised leaves
      snapshot and metadata as they were when the lock was taken, unless there was a snapshot without
      metadata and it was the building of the result that raised; then, and only then, metadata has
      been added. */
  lemma FailedTenureRestores(c: Codec, s0: State, events: seq<Event>, a: nat, k: nat, i: nat)
    requires Init(s0) && c.RoundTrips() && Tenure(c, s0, events, a, k, i)
    requires Exists(c, s0, events, k, i) && CallAt(c, s0, events, k, i).pc == FileUnlock(false)
    ensures var was, now, me := Run(c, s0, events[..a]).files, Run(c, s0, events[..k]).files,
              CallAt(c, s0, events, k, i);
            && (Restored(was, now, me) <==> !(Repaired(was, me) && ResultRaised(c, s0, events, a, k, i)))
            && (!Restored(was, now, me) ==> LeftMetadata(was, now, me))
  {
    TenureSince(c, s0, events, a, k, i);
    TenureTells(c, s0, events, a, k, i);
    hide Tenure, Run, Init, ResultRaised, Restored, LeftMetadata;
  }

  // ----------------------------------------------------------------- that case, reached

  lemma RunSnoc(c: Codec, s0: State, events: seq<Event>, e: Event)
    ensures Run(c, s0, events + [e]) == Step(c, Run(c, s0, events), e)
  {
    assert (events + [e])[..|events + [e]| - 1] == events;
  }

  /** A state with one call. */
  function Solo(v: View): State { State(v.files, [v.me], v.threadLocks, v.fileLocks) }

  lemma SoloStep(c: Codec, v: View, choice: Choice)
    ensures Step(c, Solo(v), Act(0, choice)) == Solo(SystemCall(c, v, 0, choice))
  {
    assert Solo(v).ViewOf(0) == v;
    hide SystemCall;
  }

  /** One more step of the only call, within the tenure that it took in step `a`. */
  lemma Tread(c: Codec, s0: State, es: seq<Event>, v: View, a: nat, choice: Choice, next: View)
      returns (es': seq<Event>)
    requires Run(c, s0, es) == Solo(v) && SystemCall(c, v, 0, choice) == next
    requires Tenure(c, s0, es, a, |es|, 0) && InTenure(next.me) && !RemovalFails(v.me, choice)
    ensures es' == es + [Act(0, choice)] && Run(c, s0, es') == Solo(next)
    ensures Tenure(c, s0, es', a, |es'|, 0) && es'[..a] == es[..a]
  {
    es' := es + [Act(0, choice)];
    RunSnoc(c, s0, es, Act(0, choice));
    SoloStep(c, v, choice);
    hide SystemCall, Run, Step, InTenure, RemovalFails;
    assert es'[..|es'|] == es' && es[..|es|] == es && es'[..|es|] == es;
    forall m: nat | m <= |es| ensures es'[..m] == es[..m] {}
    forall m: nat | a < m <= |es'| ensures Exists(c, s0, es', m, 0) && InTenure(CallAt(c, s0, es', m, 0)) {
      if m <= |es| { assert Exists(c, s0, es, m, 0) && InTenure(CallAt(c, s0, es, m, 0)); }
    }
    forall m: nat | a < m < |es'| && es'[m].Act? && es'[m].installer == 0
      ensures Exists(c, s0, es', m, 0) && !RemovalFails(CallAt(c, s0, es', m, 0), es'[m].choice)
    {
      if m < |es| { assert es'[m] == es[m]; }
    }
  }

  /** One call, and a snapshot without metadata. */
  function Alone(job: Job, data: Bytes): View {
    View(Installer(job, CheckSource, false, false), map[Path(Snapshot, job.stem) := File(data, true)], map[], map[])
  }

  /** The only call at this point, with both of its locks. */
  function Locking(job: Job, files: map<Path, File>, pc: Pc, sidecarCreated: bool): View {
    View(Installer(job, pc, false, sidecarCreated), files, map[(job.process, job.stem) := 0], map[job.stem := 0])
  }

  lemma ReachLocked(c: Codec, job: Job, data: Bytes) returns (es: seq<Event>)
    requires c.hash(job.source) == job.contentHash
    ensures var s0 := Solo(Alone(job, data));
            && Run(c, s0, es) == Solo(Locking(job, s0.files, Publish(Snapshot, Create), false))
            && |es| == 3 && Tenure(c, s0, es, 2, 3, 0) && Run(c, s0, es[..2]).files == s0.files
  {
    var v0 := Alone(job, data);
    var s0 := Solo(v0);
    var v1 := v0.To(v0.me.At(ThreadLock));
    var v2 := v0.To(v0.me.At(FileLock)).(threadLocks := map[(job.process, job.stem) := 0]);
    var v3 := Locking(job, v0.files, Publish(Snapshot, Create), false);
    assert SystemCall(c, v0, 0, Proceed(0)) == v1 && SystemCall(c, v1, 0, Proceed(0)) == v2;
    assert SystemCall(c, v2, 0, Proceed(0)) == v3;
    hide SystemCall;
    SoloStep(c, v0, Proceed(0));
    SoloStep(c, v1, Proceed(0));
    SoloStep(c, v2, Proceed(0));
    hide Step;
    var e := Act(0, Proceed(0));
    es := [e, e, e];
    assert Run(c, s0, []) == s0;
    RunSnoc(c, s0, [], e);
    RunSnoc(c, s0, [e], e);
    RunSnoc(c, s0, [e, e], e);
    assert [] + [e] == [e] && [e] + [e] == [e, e] && [e, e] + [e] == es;
    hide Run;
    assert es[..2] == [e, e] && es[..3] == es;
  }

  lemma AdoptingSteps(c: Codec, job: Job, data: Bytes)
    requires c.hash(data) == job.contentHash
    ensures var files := map[Path(Snapshot, job.stem) := File(data, true)];
            && SystemCall(c, Locking(job, files, Publish(Snapshot, Create), false), 0, Proceed(0))
               == Locking(job, files, Adopt(Snapshot, Open), false)
            && SystemCall(c, Locking(job, files, Adopt(Snapshot, Open), false), 0, Proceed(0))
               == Locking(job, files, Adopt(Snapshot, ProtectRead(data)), false)
            && SystemCall(c, Locking(job, files, Adopt(Snapshot, ProtectRead(data)), false), 0, Proceed(0))
               == Locking(job, files, Adopt(Snapshot, Check(data)), false)
            && SystemCall(c, Locking(job, files, Adopt(Snapshot, Check(data)), false), 0, Proceed(0))
               == Locking(job, files, Publish(Sidecar, Create), false)
  {
    var path := Path(Snapshot, job.stem);
    assert map[path := File(data, true)][path := File(data, true)] == map[path := File(data, true)];
  }

  /** The snapshot is adopted. */
  lemma ReachSidecar(c: Codec, s0: State, es: seq<Event>, job: Job, data: Bytes) returns (es': seq<Event>)
    requires c.hash(data) == job.contentHash && |es| == 3 && Tenure(c, s0, es, 2, 3, 0)
    requires var files := map[Path(Snapshot, job.stem) := File(data, true)];
             Run(c, s0, es) == Solo(Locking(job, files, Publish(Snapshot, Create), false))
    ensures |es'| == 7 && Tenure(c, s0, es', 2, |es'|, 0) && es'[..2] == es[..2]
    ensures var files := map[Path(Snapshot, job.stem) := File(data, true)];
            Run(c, s0, es') == Solo(Locking(job, files, Publish(Sidecar, Create), false))
  {
    var files := map[Path(Snapshot, job.stem) := File(data, true)];
    AdoptingSteps(c, job, data);
    hide SystemCall, Tenure, Run, Solo;
    var v0 := Locking(job, files, Publish(Snapshot, Create), false);
    var v1 := Locking(job, files, Adopt(Snapshot, Open), false);
    es' := Tread(c, s0, es, v0, 2, Proceed(0), v1);
    var v2 := Locking(job, files, Adopt(Snapshot, ProtectRead(data)), false);
    es' := Tread(c, s0, es', v1, 2, Proceed(0), v2);
    var v3 := Locking(job, files, Adopt(Snapshot, Check(data)), false);
    es' := Tread(c, s0, es', v2, 2, Proceed(0), v3);
    es' := Tread(c, s0, es', v3, 2, Proceed(0), Locking(job, files, Publish(Sidecar, Create), false));
  }

  lemma WritingSteps(c: Codec, job: Job, files: map<Path, File>)
    requires Path(Sidecar, job.stem) !in files
    ensures var path, text := Path(Sidecar, job.stem), c.encode(job.Record());
            var begun, full := files[path := File([], false)], files[path := File(text, false)];
            && SystemCall(c, Locking(job, files, Publish(Sidecar, Create), false), 0, Proceed(0))
               == Locking(job, begun, Publish(Sidecar, Write(0)), false)
            && (text != [] ==>
                  SystemCall(c, Locking(job, begun, Publish(Sidecar, Write(0)), false), 0, Proceed(|text|))
                  == Locking(job, full, Publish(Sidecar, Write(|text|)), false))
            && SystemCall(c, Locking(job, full, Publish(Sidecar, Write(|text|)), false), 0, Proceed(0))
               == Locking(job, full, Publish(Sidecar, Flush), false)
  {
    var path, text := Path(Sidecar, job.stem), c.encode(job.Record());
    assert text[..|text|] == text;
    assert files[path := File([], false)][path := File(text, false)] == files[path := File(text, false)];
  }

  lemma FinishingSteps(c: Codec, job: Job, files: map<Path, File>)
    ensures var path, text := Path(Sidecar, job.stem), c.encode(job.Record());
            var full := files[path := File(text, false)];
            && SystemCall(c, Locking(job, full, Publish(Sidecar, Flush), false), 0, Proceed(0))
               == Locking(job, full, Publish(Sidecar, ReadBack), false)
            && SystemCall(c, Locking(job, full, Publish(Sidecar, ReadBack), false), 0, Proceed(0))
               == Locking(job, full, Publish(Sidecar, Protect), false)
            && SystemCall(c, Locking(job, full, Publish(Sidecar, Protect), false), 0, Proceed(0))
               == Locking(job, files[path := File(text, true)], BuildResult, true)
  {
    var path, text := Path(Sidecar, job.stem), c.encode(job.Record());
    assert files[path := File(text, false)][path := File(text, true)] == files[path := File(text, true)];
  }

  /** The metadata is written ... */
  lemma ReachWritten(c: Codec, s0: State, es: seq<Event>, job: Job, files: map<Path, File>)
      returns (es': seq<Event>)
    requires |es| >= 3 && Tenure(c, s0, es, 2, |es|, 0) && Path(Sidecar, job.stem) !in files
    requires Run(c, s0, es) == Solo(Locking(job, files, Publish(Sidecar, Create), false))
    ensures |es'| >= 3 && Tenure(c, s0, es', 2, |es'|, 0) && es'[..2] == es[..2]
    ensures var path, text := Path(Sidecar, job.stem), c.encode(job.Record());
            Run(c, s0, es') == Solo(Locking(job, files[path := File(text, false)], Publish(Sidecar, Flush), false))
  {
    var path, text := Path(Sidecar, job.stem), c.encode(job.Record());
    var begun, full := files[path := File([], false)], files[path := File(text, false)];
    WritingSteps(c, job, files);
    hide SystemCall, Tenure, Run, Solo;
    var v0 := Locking(job, files, Publish(Sidecar, Create), false);
    var v1 := Locking(job, begun, Publish(Sidecar, Write(0)), false);
    es' := Tread(c, s0, es, v0, 2, Proceed(0), v1);
    var v2 := Locking(job, full, Publish(Sidecar, Write(|text|)), false);
    if text != [] {
      es' := Tread(c, s0, es', v1, 2, Proceed(|text|), v2);
    }
    es' := Tread(c, s0, es', v2, 2, Proceed(0), Locking(job, full, Publish(Sidecar, Flush), false));
  }

  /** ... and finished. */
  lemma ReachResult(c: Codec, s0: State, es: seq<Event>, job: Job, files: map<Path, File>) returns (es': seq<Event>)
    requires |es| >= 3 && Tenure(c, s0, es, 2, |es|, 0)
    requires var path, text := Path(Sidecar, job.stem), c.encode(job.Record());
             Run(c, s0, es) == Solo(Locking(job, files[path := File(text, false)], Publish(Sidecar, Flush), false))
    ensures |es'| >= 3 && Tenure(c, s0, es', 2, |es'|, 0) && es'[..2] == es[..2]
    ensures var path, text := Path(Sidecar, job.stem), c.encode(job.Record());
            Run(c, s0, es') == Solo(Locking(job, files[path := File(text, true)], BuildResult, true))
  {
    var path, text := Path(Sidecar, job.stem), c.encode(job.Record());
    var full := files[path := File(text, false)];
    FinishingSteps(c, job, files);
    hide SystemCall, Tenure, Run, Solo;
    var v0 := Locking(job, full, Publish(Sidecar, Flush), false);
    var v1 := Locking(job, full, Publish(Sidecar, ReadBack), false);
    es' := Tread(c, s0, es, v0, 2, Proceed(0), v1);
    var v2 := Locking(job, full, Publish(Sidecar, Protect), false);
    es' := Tread(c, s0, es', v1, 2, Proceed(0), v2);
    es' := Tread(c, s0, es', v2, 2, Proceed(0), Locking(job, files[path := File(text, true)], BuildResult, true));
  }

  /** From any snapshot with the hash of the job and no metadata beside it, there is a run whose tenure
      fails and leaves the metadata behind. */
  lemma MetadataIsLeft(c: Codec, job: Job, data: Bytes) returns (events: seq<Event>)
    requires c.hash(job.source) == c.hash(data) == job.contentHash
    ensures var s0, k := Solo(Alone(job, data)), |events|;
            && Init(s0) && Tenure(c, s0, events, 2, k, 0)
            && Exists(c, s0, events, k, 0) && CallAt(c, s0, events, k, 0).pc == FileUnlock(false)
            && LeftMetadata(Run(c, s0, events[..2]).files, Run(c, s0, events[..k]).files, CallAt(c, s0, events, k, 0))
  {
    var v0 := Alone(job, data);
    var s0 := Solo(v0);
    var path, text := Path(Sidecar, job.stem), c.encode(job.Record());
    var after := v0.files[path := File(text, true)];
    assert Init(s0);
    events := ReachLocked(c, job, data);
    hide Run, Tenure, Step, Init;
    events := ReachSidecar(c, s0, events, job, data);
    events := ReachWritten(c, s0, events, job, v0.files);
    events := ReachResult(c, s0, events, job, v0.files);
    ResultFails(c, Locking(job, after, BuildResult, true));
    LeftThere(job, data, text);
    hide SystemCall, LeftMetadata, Locking, Alone;
    var last := Locking(job, after, FileUnlock(false), true);
    events := Tread(c, s0, events, Locking(job, after, BuildResult, true), 2, Fault(0), last);
    assert events[..|events|] == events;
  }

  lemma ResultFails(c: Codec, v: View)
    requires v.me.pc == BuildResult && !v.me.created
    ensures SystemCall(c, v, 0, Fault(0)) == v.To(v.me.At(FileUnlock(false)))
    ensures v.To(v.me.At(FileUnlock(false))).me.pc == FileUnlock(false) && !RemovalFails(v.me, Fault(0))
  {}

  lemma LeftThere(job: Job, data: Bytes, text: Bytes)
    ensures var was := Alone(job, data).files;
            var last := Locking(job, was[Path(Sidecar, job.stem) := File(text, true)], FileUnlock(false), true);
            last.me.pc == FileUnlock(false) && LeftMetadata(was, last.files, last.me)
            && Locking(job, last.files, BuildResult, true).To(last.me) == last
  {}
}
