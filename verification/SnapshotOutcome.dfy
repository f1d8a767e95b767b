/** What a successful `install_snapshot` call stands for, over all interleavings, and that a call which
    nothing disturbs succeeds. */
module SnapshotOutcome {
  import opened Common
  import opened SnapshotProtocol
  import Rollback = SnapshotRollback

  /** What the metadata file of a call that has finished its work holds: what the call wrote, which is
      the caller's with the name of the file and the hash; or what was there, with these two and every
      required entry. */
  ghost predicate MetadataStands(c: Codec, files: map<Path, File>, me: Installer) {
    var job := me.job;
    var path := Path(Sidecar, job.stem);
    && path in files && c.decode(files[path].data).Some?
    && var m := c.decode(files[path].data).value;
       && "local_file" in m && m["local_file"] == job.stem + ".yml"
       && "sha256" in m && m["sha256"] == job.contentHash
       && (me.sidecarCreated ==> m == job.metadata["local_file" := job.stem + ".yml"]["sha256" := job.contentHash])
       && (!me.sidecarCreated ==> forall k | k in job.required :: k in m && m[k] == job.required[k])
  }

  ghost predicate Stands(c: Codec, files: map<Path, File>, me: Installer) {
    me.pc.BuildResult? || me.Succeeded() ==> MetadataStands(c, files, me)
  }

  lemma ProtectingStands(c: Codec, v: View, choice: Choice)
    requires Local(c, v.files, v.me) && c.RoundTrips() && v.me.pc == Publish(Sidecar, Protect)
    ensures var r := PublishCall(c, v, Sidecar, Protect, choice); Stands(c, r.files, r.me)
  {
    var job := v.me.job;
    assert c.decode(c.encode(job.Record())) == Some(job.Record());
  }

  lemma PublishingStands(c: Codec, v: View, choice: Choice)
    requires v.me.pc.Publish? && v.me.pc != Publish(Sidecar, Protect)
    ensures var r := PublishCall(c, v, v.me.pc.kind, v.me.pc.step, choice); Stands(c, r.files, r.me)
  {
    hide MetadataStands, Job.Payload;
    if v.me.pc.step.Create? || v.me.pc.step.Write? {
      BeginningGoesOn(c, v, choice);
      hide PublishCall;
    }
  }

  lemma BeginningGoesOn(c: Codec, v: View, choice: Choice)
    requires v.me.pc.Publish? && (v.me.pc.step.Create? || v.me.pc.step.Write?)
    ensures var r := PublishCall(c, v, v.me.pc.kind, v.me.pc.step, choice);
            !r.me.pc.BuildResult? && !r.me.Succeeded()
  {
    hide Job.Payload;
  }

  lemma AdoptingStands(c: Codec, v: View, ok: bool)
    requires Local(c, v.files, v.me) && v.me.pc.Adopt?
    ensures var r := AdoptCall(c, v, v.me.pc.kind, v.me.pc.doing, ok); Stands(c, r.files, r.me)
  {
    Rollback.LocalFlagsHere(c, v.files, v.me);
    if v.me.pc.doing.Check? && v.me.pc.kind == Sidecar {
      CheckedMetadata(c, v, ok);
    } else {
      hide Local, MetadataStands;
    }
  }

  lemma CheckedMetadata(c: Codec, v: View, ok: bool)
    requires Local(c, v.files, v.me) && v.me.pc.Adopt? && v.me.pc.kind == Sidecar && v.me.pc.doing.Check?
    requires !v.me.sidecarCreated
    ensures var r := AdoptCall(c, v, Sidecar, v.me.pc.doing, ok); Stands(c, r.files, r.me)
  {}

  lemma CallStands(c: Codec, v: View, i: nat, choice: Choice)
    requires Local(c, v.files, v.me) && c.RoundTrips() && Stands(c, v.files, v.me)
    ensures var r := SystemCall(c, v, i, choice); Stands(c, r.files, r.me)
  {
    hide PublishCall, AdoptCall, Local, MetadataStands;
    if v.me.pc == Publish(Sidecar, Protect) {
      ProtectingStands(c, v, choice);
    } else if v.me.pc.Publish? {
      PublishingStands(c, v, choice);
    } else if v.me.pc.Adopt? {
      AdoptingStands(c, v, choice.Proceed?);
    } else {
      LeavingStands(c, v, i, choice);
    }
  }

  lemma LeavingStands(c: Codec, v: View, i: nat, choice: Choice)
    requires !v.me.pc.Publish? && !v.me.pc.Adopt? && Stands(c, v.files, v.me)
    ensures var r := SystemCall(c, v, i, choice); Stands(c, r.files, r.me)
  {
    hide SystemCall, MetadataStands, Installer.Succeeded;
    var r := SystemCall(c, v, i, choice);
    if v.me.pc.BuildResult? {
      Results(c, v, i, choice);
      StandsAnywhere(c, v.files, v.me, r.me.pc);
    } else if v.me.Leaving() {
      OnlyMoves(c, v, i, choice);
      StandsAnywhere(c, v.files, v.me, r.me.pc);
    } else {
      GetsNoFurther(c, v, i, choice);
    }
  }

  lemma Results(c: Codec, v: View, i: nat, choice: Choice)
    requires v.me.pc.BuildResult?
    ensures var r := SystemCall(c, v, i, choice); r.files == v.files && r.me == v.me.At(r.me.pc)
  {}

  lemma OnlyMoves(c: Codec, v: View, i: nat, choice: Choice)
    requires v.me.Leaving()
    ensures var r := SystemCall(c, v, i, choice);
            && r.files == v.files && r.me == v.me.At(r.me.pc)
            && (r.me.pc.BuildResult? || r.me.Succeeded() ==> v.me.pc.BuildResult? || v.me.Succeeded())
  {
    hide PublishCall, AdoptCall;
  }

  lemma GetsNoFurther(c: Codec, v: View, i: nat, choice: Choice)
    requires v.me.pc.CheckSource? || v.me.pc.ThreadLock? || v.me.pc.FileLock? || v.me.pc.Undo?
    ensures var r := SystemCall(c, v, i, choice); !r.me.pc.BuildResult? && !r.me.Succeeded()
  {
    hide PublishCall, AdoptCall;
  }

  lemma StandsAnywhere(c: Codec, files: map<Path, File>, me: Installer, pc: Pc)
    ensures MetadataStands(c, files, me.At(pc)) <==> MetadataStands(c, files, me)
  {}

  ghost predicate AllStand(c: Codec, s: State) {
    forall j | 0 <= j < |s.installers| :: Stands(c, s.files, s.installers[j])
  }

  lemma StandsOnTarget(c: Codec, old_: map<Path, File>, new_: map<Path, File>, me: Installer)
    requires Stands(c, old_, me) && SameAt(old_, new_, Path(Sidecar, me.job.stem))
    ensures Stands(c, new_, me)
  {}

  lemma StepKeepsStanding(c: Codec, s: State, e: Event)
    requires Inv(c, s) && AllStand(c, s) && c.RoundTrips()
    ensures AllStand(c, Step(c, s, e))
  {
    var s' := Step(c, s, e);
    forall j | 0 <= j < |s'.installers| ensures Stands(c, s'.files, s'.installers[j]) {
      OneStepStands(c, s, e, j);
    }
    hide Step;
  }

  lemma OneStepStands(c: Codec, s: State, e: Event, j: nat)
    requires Inv(c, s) && AllStand(c, s) && c.RoundTrips() && j < |Step(c, s, e).installers|
    ensures var s' := Step(c, s, e); Stands(c, s'.files, s'.installers[j])
  {
    SizeKept(c, s, e);
    var me := s.installers[j];
    assert Local(c, s.files, me) && Stands(c, s.files, me);
    hide Inv, Local, AllStand, SystemCall, Stands;
    if e.Act? && e.installer == j {
      CallStands(c, s.ViewOf(j), j, e.choice);
    } else if me.pc.BuildResult? {
      Rollback.OthersKeepTarget(c, s, e, j, Sidecar);
      StandsOnTarget(c, s.files, Step(c, s, e).files, me);
      DeadStands(c, s, e, j);
    } else if me.Succeeded() {
      SuccessSurvivesStep(c, s, e, j);
      StandsOnTarget(c, s.files, Step(c, s, e).files, me);
      DeadStands(c, s, e, j);
    } else {
      IdleStands(c, s, e, j);
    }
  }

  lemma SizeKept(c: Codec, s: State, e: Event)
    ensures |Step(c, s, e).installers| == |s.installers|
  {
    hide SystemCall;
  }

  /** A call that did not act is where it was, or dead. */
  lemma DeadStands(c: Codec, s: State, e: Event, j: nat)
    requires j < |s.installers| && !(e.Act? && e.installer == j) && j < |Step(c, s, e).installers|
    requires Stands(c, Step(c, s, e).files, s.installers[j])
    ensures Stands(c, Step(c, s, e).files, Step(c, s, e).installers[j])
  {
    hide SystemCall, MetadataStands;
  }

  lemma IdleStands(c: Codec, s: State, e: Event, j: nat)
    requires j < |s.installers| && !(e.Act? && e.installer == j) && j < |Step(c, s, e).installers|
    requires !s.installers[j].pc.BuildResult? && !s.installers[j].Succeeded()
    ensures Stands(c, Step(c, s, e).files, Step(c, s, e).installers[j])
  {
    hide SystemCall, MetadataStands;
  }

  lemma {:induction false} AlwaysStand(c: Codec, s0: State, events: seq<Event>)
    requires Init(s0) && c.RoundTrips()
    ensures AllStand(c, Run(c, s0, events))
  {
    if events != [] {
      AlwaysStand(c, s0, events[..|events| - 1]);
      Reachable(c, s0, events[..|events| - 1]);
      StepKeepsStanding(c, Run(c, s0, events[..|events| - 1]), events[|events| - 1]);
      hide Step, Inv, AllStand;
    }
  }

  /** In every reachable state: a call that has returned success stands for a protected snapshot with the
      promised hash, and for metadata that says so and meets every entry that the call required. */
  lemma ReturnedMeans(c: Codec, s0: State, events: seq<Event>, j: nat)
    requires Init(s0) && c.RoundTrips()
    requires var s := Run(c, s0, events); j < |s.installers| && s.installers[j].pc == Returned
    ensures var s := Run(c, s0, events); var me := s.installers[j];
            var target, sidecar := Path(Snapshot, me.job.stem), Path(Sidecar, me.job.stem);
            && target in s.files && s.files[target].readonly && c.hash(s.files[target].data) == me.job.contentHash
            && sidecar in s.files && s.files[sidecar].readonly
            && MetadataStands(c, s.files, me)
  {
    Reachable(c, s0, events);
    AlwaysStand(c, s0, events);
    var s := Run(c, s0, events);
    assert Local(c, s.files, s.installers[j]) && Stands(c, s.files, s.installers[j]);
    hide Inv, AllStand, MetadataStands, PublishLocal, AdoptLocal;
  }

  // -------------------------------------------------------------- an undisturbed call

  /** What call 0 has come to after these steps of its own. */
  function Follow(c: Codec, v: View, choices: seq<Choice>): View {
    if choices == [] then v
    else SystemCall(c, Follow(c, v, choices[..|choices| - 1]), 0, choices[|choices| - 1])
  }

  function Acts(choices: seq<Choice>): seq<Event> {
    seq(|choices|, k requires 0 <= k < |choices| => Act(0, choices[k]))
  }

  lemma {:induction false} FollowRuns(c: Codec, v: View, choices: seq<Choice>)
    ensures Run(c, Rollback.Solo(v), Acts(choices)) == Rollback.Solo(Follow(c, v, choices))
  {
    hide SystemCall, Step, Rollback.Solo;
    if choices != [] {
      var front, last := choices[..|choices| - 1], choices[|choices| - 1];
      FollowRuns(c, v, front);
      Rollback.SoloStep(c, Follow(c, v, front), last);
      assert Acts(choices) == Acts(front) + [Act(0, last)];
      Rollback.RunSnoc(c, Rollback.Solo(v), Acts(front), Act(0, last));
    }
  }

  ghost predicate Leads(c: Codec, v: View, w: View) { exists choices :: Follow(c, v, choices) == w }

  lemma LeadsNowhere(c: Codec, v: View)
    ensures Leads(c, v, v)
  {
    assert Follow(c, v, []) == v;
  }

  lemma LeadsOn(c: Codec, u: View, v: View, choice: Choice, w: View)
    requires Leads(c, u, v) && SystemCall(c, v, 0, choice) == w
    ensures Leads(c, u, w)
  {
    hide SystemCall;
    var choices :| Follow(c, u, choices) == v;
    assert (choices + [choice])[..|choices|] == choices;
    assert Follow(c, u, choices + [choice]) == w;
  }

  /** The only call at this point, with both of its locks. */
  function Locking(job: Job, files: map<Path, File>, pc: Pc, created: bool, sidecarCreated: bool): View {
    View(Installer(job, pc, created, sidecarCreated), files, map[(job.process, job.stem) := 0], map[job.stem := 0])
  }

  function Begun(job: Job, files: map<Path, File>): View {
    View(Installer(job, CheckSource, false, false), files, map[], map[])
  }

  function Ended(job: Job, files: map<Path, File>, created: bool, sidecarCreated: bool): View {
    View(Installer(job, Returned, created, sidecarCreated), files, map[], map[])
  }

  lemma Enters(c: Codec, job: Job, files: map<Path, File>)
    requires c.hash(job.source) == job.contentHash
    ensures Leads(c, Begun(job, files), Locking(job, files, Publish(Snapshot, Create), false, false))
  {
    var v0 := Begun(job, files);
    var v1 := v0.To(v0.me.At(ThreadLock));
    var v2 := v0.To(v0.me.At(FileLock)).(threadLocks := map[(job.process, job.stem) := 0]);
    var v3 := Locking(job, files, Publish(Snapshot, Create), false, false);
    assert SystemCall(c, v0, 0, Proceed(0)) == v1 && SystemCall(c, v1, 0, Proceed(0)) == v2;
    assert SystemCall(c, v2, 0, Proceed(0)) == v3;
    hide SystemCall, Leads;
    LeadsNowhere(c, v0);
    LeadsOn(c, v0, v0, Proceed(0), v1);
    LeadsOn(c, v0, v1, Proceed(0), v2);
    LeadsOn(c, v0, v2, Proceed(0), v3);
  }

  lemma Leaves(c: Codec, u: View, job: Job, files: map<Path, File>, created: bool, sidecarCreated: bool)
    requires Leads(c, u, Locking(job, files, BuildResult, created, sidecarCreated))
    ensures Leads(c, u, Ended(job, files, created, sidecarCreated))
  {
    var v0 := Locking(job, files, BuildResult, created, sidecarCreated);
    var v1 := Locking(job, files, FileUnlock(true), created, sidecarCreated);
    var v2 := v1.To(v1.me.At(ThreadUnlock(true))).(fileLocks := map[]);
    var v3 := Ended(job, files, created, sidecarCreated);
    LeavingSteps(c, job, files, created, sidecarCreated);
    hide SystemCall, Leads;
    LeadsOn(c, u, v0, Proceed(0), v1);
    LeadsOn(c, u, v1, Proceed(0), v2);
    LeadsOn(c, u, v2, Proceed(0), v3);
  }

  lemma LeavingSteps(c: Codec, job: Job, files: map<Path, File>, created: bool, sidecarCreated: bool)
    ensures var v1 := Locking(job, files, FileUnlock(true), created, sidecarCreated);
            var v2 := v1.To(v1.me.At(ThreadUnlock(true))).(fileLocks := map[]);
            && SystemCall(c, Locking(job, files, BuildResult, created, sidecarCreated), 0, Proceed(0)) == v1
            && SystemCall(c, v1, 0, Proceed(0)) == v2
            && SystemCall(c, v2, 0, Proceed(0)) == Ended(job, files, created, sidecarCreated)
  {
    assert map[job.stem := 0] - {job.stem} == map[];
    assert map[(job.process, job.stem) := 0] - {(job.process, job.stem)} == map[];
  }

  lemma BeginningSteps(c: Codec, job: Job, files: map<Path, File>, kind: Kind, created: bool)
    requires Path(kind, job.stem) !in files
    ensures var path, text := Path(kind, job.stem), job.Payload(c, kind);
            var begun, full := files[path := File([], false)], files[path := File(text, false)];
            && SystemCall(c, Locking(job, files, Publish(kind, Create), created, false), 0, Proceed(0))
               == Locking(job, begun, Publish(kind, Write(0)), created, false)
            && (text != [] ==>
                  SystemCall(c, Locking(job, begun, Publish(kind, Write(0)), created, false), 0, Proceed(|text|))
                  == Locking(job, full, Publish(kind, Write(|text|)), created, false))
            && SystemCall(c, Locking(job, full, Publish(kind, Write(|text|)), created, false), 0, Proceed(0))
               == Locking(job, full, Publish(kind, Flush), created, false)
  {
    var path, text := Path(kind, job.stem), job.Payload(c, kind);
    hide Job.Payload;
    assert text[..|text|] == text;
    assert files[path := File([], false)][path := File(text, false)] == files[path := File(text, false)];
  }

  lemma EndingSteps(c: Codec, job: Job, files: map<Path, File>, kind: Kind, created: bool)
    ensures var path, text := Path(kind, job.stem), job.Payload(c, kind);
            var full := files[path := File(text, false)];
            && SystemCall(c, Locking(job, full, Publish(kind, Flush), created, false), 0, Proceed(0))
               == Locking(job, full, Publish(kind, ReadBack), created, false)
            && SystemCall(c, Locking(job, full, Publish(kind, ReadBack), created, false), 0, Proceed(0))
               == Locking(job, full, Publish(kind, Protect), created, false)
            && SystemCall(c, Locking(job, full, Publish(kind, Protect), created, false), 0, Proceed(0))
               == (if kind == Snapshot
                   then Locking(job, files[path := File(text, true)], Adopt(Snapshot, Check(job.source)), true, false)
                   else Locking(job, files[path := File(text, true)], BuildResult, created, true))
  {
    var path, text := Path(kind, job.stem), job.Payload(c, kind);
    hide Job.Payload;
    assert files[path := File(text, false)][path := File(text, true)] == files[path := File(text, true)];
  }

  /** A file that is not there is written, up to its protection. */
  lemma Writes(c: Codec, u: View, job: Job, files: map<Path, File>, kind: Kind, created: bool)
    requires Path(kind, job.stem) !in files
    requires Leads(c, u, Locking(job, files, Publish(kind, Create), created, false))
    ensures var full := files[Path(kind, job.stem) := File(job.Payload(c, kind), false)];
            Leads(c, u, Locking(job, full, Publish(kind, Protect), created, false))
  {
    var path, text := Path(kind, job.stem), job.Payload(c, kind);
    var begun, full := files[path := File([], false)], files[path := File(text, false)];
    BeginningSteps(c, job, files, kind, created);
    EndingSteps(c, job, files, kind, created);
    hide SystemCall, Leads, Job.Payload, Locking;
    var v1 := Locking(job, begun, Publish(kind, Write(0)), created, false);
    LeadsOn(c, u, Locking(job, files, Publish(kind, Create), created, false), Proceed(0), v1);
    var v2 := Locking(job, full, Publish(kind, Write(|text|)), created, false);
    if text != [] { LeadsOn(c, u, v1, Proceed(|text|), v2); }
    var v3 := Locking(job, full, Publish(kind, Flush), created, false);
    LeadsOn(c, u, v2, Proceed(0), v3);
    var v4 := Locking(job, full, Publish(kind, ReadBack), created, false);
    LeadsOn(c, u, v3, Proceed(0), v4);
    LeadsOn(c, u, v4, Proceed(0), Locking(job, full, Publish(kind, Protect), created, false));
  }

  lemma AdoptingSteps(c: Codec, job: Job, files: map<Path, File>, kind: Kind, created: bool)
    requires Path(kind, job.stem) in files
    ensures var path := Path(kind, job.stem); var data := files[path].data;
            && SystemCall(c, Locking(job, files, Publish(kind, Create), created, false), 0, Proceed(0))
               == Locking(job, files, Adopt(kind, Open), created, false)
            && SystemCall(c, Locking(job, files, Adopt(kind, Open), created, false), 0, Proceed(0))
               == Locking(job, files, Adopt(kind, ProtectRead(data)), created, false)
            && SystemCall(c, Locking(job, files, Adopt(kind, ProtectRead(data)), created, false), 0, Proceed(0))
               == Locking(job, files[path := File(data, true)], Adopt(kind, Check(data)), created, false)
  {}

  /** A file that is there is read and protected. */
  lemma Reads(c: Codec, u: View, job: Job, files: map<Path, File>, kind: Kind, created: bool)
    requires Path(kind, job.stem) in files
    requires Leads(c, u, Locking(job, files, Publish(kind, Create), created, false))
    ensures var path := Path(kind, job.stem); var data := files[path].data;
            Leads(c, u, Locking(job, files[path := File(data, true)], Adopt(kind, Check(data)), created, false))
  {
    var path, data := Path(kind, job.stem), files[Path(kind, job.stem)].data;
    AdoptingSteps(c, job, files, kind, created);
    hide SystemCall, Leads, Locking;
    var v1 := Locking(job, files, Adopt(kind, Open), created, false);
    LeadsOn(c, u, Locking(job, files, Publish(kind, Create), created, false), Proceed(0), v1);
    var v2 := Locking(job, files, Adopt(kind, ProtectRead(data)), created, false);
    LeadsOn(c, u, v1, Proceed(0), v2);
    var now := files[path := File(data, true)];
    LeadsOn(c, u, v2, Proceed(0), Locking(job, now, Adopt(kind, Check(data)), created, false));
  }

  /** The snapshot file after a call that started from these files. */
  function SnapshotAfter(job: Job, files: map<Path, File>): map<Path, File> {
    var path := Path(Snapshot, job.stem);
    files[path := File(if path in files then files[path].data else job.source, true)]
  }

  lemma SnapshotSettles(c: Codec, u: View, job: Job, files: map<Path, File>)
    requires var path := Path(Snapshot, job.stem); path in files ==> c.hash(files[path].data) == job.contentHash
    requires c.hash(job.source) == job.contentHash
    requires Leads(c, u, Locking(job, files, Publish(Snapshot, Create), false, false))
    ensures var created := Path(Snapshot, job.stem) !in files;
            Leads(c, u, Locking(job, SnapshotAfter(job, files), Publish(Sidecar, Create), created, false))
  {
    var path, now := Path(Snapshot, job.stem), SnapshotAfter(job, files);
    var created := path !in files;
    var data := now[path].data;
    var v := Locking(job, now, Adopt(Snapshot, Check(data)), created, false);
    hide Leads;
    if created {
      Writes(c, u, job, files, Snapshot, false);
      EndingSteps(c, job, files, Snapshot, false);
      var full := files[path := File(job.source, false)];
      LeadsOn(c, u, Locking(job, full, Publish(Snapshot, Protect), false, false), Proceed(0), v);
    } else {
      Reads(c, u, job, files, Snapshot, false);
    }
    CheckPasses(c, v);
    LeadsOn(c, u, v, Proceed(0), Locking(job, now, Publish(Sidecar, Create), created, false));
  }

  lemma CheckPasses(c: Codec, v: View)
    requires v.me.pc.Adopt? && v.me.pc.kind == Snapshot && v.me.pc.doing.Check?
    requires c.hash(v.me.pc.doing.bytes) == v.me.job.contentHash
    ensures SystemCall(c, v, 0, Proceed(0)) == v.To(v.me.At(Publish(Sidecar, Create)))
  {}

  /** Existing metadata that the call may keep. */
  predicate Keeps(job: Job, m: Metadata) {
    && "local_file" in m && m["local_file"] == job.stem + ".yml"
    && "sha256" in m && m["sha256"] == job.contentHash
    && forall k | k in job.required :: k in m && m[k] == job.required[k]
  }

  /** ... and the metadata file. */
  function SidecarAfter(c: Codec, job: Job, files: map<Path, File>): map<Path, File> {
    var path := Path(Sidecar, job.stem);
    var text := c.encode(job.metadata["local_file" := job.stem + ".yml"]["sha256" := job.contentHash]);
    files[path := File(if path in files then files[path].data else text, true)]
  }

  lemma SidecarSettles(c: Codec, u: View, job: Job, files: map<Path, File>, created: bool)
    requires var path := Path(Sidecar, job.stem);
             path in files ==> c.decode(files[path].data).Some? && Keeps(job, c.decode(files[path].data).value)
    requires Leads(c, u, Locking(job, files, Publish(Sidecar, Create), created, false))
    ensures var sidecarCreated := Path(Sidecar, job.stem) !in files;
            Leads(c, u, Locking(job, SidecarAfter(c, job, files), BuildResult, created, sidecarCreated))
  {
    var path, now := Path(Sidecar, job.stem), SidecarAfter(c, job, files);
    var text := job.Payload(c, Sidecar);
    hide Leads;
    if path in files {
      var v := Locking(job, now, Adopt(Sidecar, Check(files[path].data)), created, false);
      Reads(c, u, job, files, Sidecar, created);
      MetadataPasses(c, v);
      LeadsOn(c, u, v, Proceed(0), Locking(job, now, BuildResult, created, false));
    } else {
      Writes(c, u, job, files, Sidecar, created);
      EndingSteps(c, job, files, Sidecar, created);
      var full := files[path := File(text, false)];
      LeadsOn(c, u, Locking(job, full, Publish(Sidecar, Protect), created, false), Proceed(0),
          Locking(job, now, BuildResult, created, true));
    }
  }

  lemma MetadataPasses(c: Codec, v: View)
    requires v.me.pc.Adopt? && v.me.pc.kind == Sidecar && v.me.pc.doing.Check?
    requires var m := c.decode(v.me.pc.doing.bytes); m.Some? && Keeps(v.me.job, m.value)
    ensures SystemCall(c, v, 0, Proceed(0)) == v.To(v.me.At(BuildResult))
  {}

  /** From any files: a call with the right hash, on a target that is free or has that hash, and with no
      metadata there or metadata that fits, succeeds if nothing disturbs it.  Then the snapshot and the
      metadata are there, protected, what was there has its bytes, and no lock is left. */
  lemma UndisturbedCallInstalls(c: Codec, job: Job, files: map<Path, File>) returns (events: seq<Event>)
    requires c.hash(job.source) == job.contentHash
    requires var path := Path(Snapshot, job.stem); path in files ==> c.hash(files[path].data) == job.contentHash
    requires var path := Path(Sidecar, job.stem);
             path in files ==> c.decode(files[path].data).Some? && Keeps(job, c.decode(files[path].data).value)
    ensures Run(c, Rollback.Solo(Begun(job, files)), events)
            == Rollback.Solo(Ended(job, SidecarAfter(c, job, SnapshotAfter(job, files)),
                                   Path(Snapshot, job.stem) !in files, Path(Sidecar, job.stem) !in files))
  {
    var u, now := Begun(job, files), SnapshotAfter(job, files);
    var created, sidecarCreated := Path(Snapshot, job.stem) !in files, Path(Sidecar, job.stem) !in files;
    SidecarElsewhere(job, files);
    hide SnapshotAfter, SidecarAfter, Leads, Begun, Ended, Rollback.Solo, Keeps;
    Enters(c, job, files);
    SnapshotSettles(c, u, job, files);
    SidecarSettles(c, u, job, now, created);
    Leaves(c, u, job, SidecarAfter(c, job, now), created, sidecarCreated);
    events := LeadsByRun(c, u, Ended(job, SidecarAfter(c, job, now), created, sidecarCreated));
  }

  lemma SidecarElsewhere(job: Job, files: map<Path, File>)
    ensures var path := Path(Sidecar, job.stem);
            SameAt(files, SnapshotAfter(job, files), path)
  {}

  lemma LeadsByRun(c: Codec, u: View, w: View) returns (events: seq<Event>)
    requires Leads(c, u, w)
    ensures Run(c, Rollback.Solo(u), events) == Rollback.Solo(w)
  {
    hide SystemCall, Run;
    var choices :| Follow(c, u, choices) == w;
    FollowRuns(c, u, choices);
    events := Acts(choices);
  }
}
