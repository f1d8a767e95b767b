/** Any number of concurrent `install_snapshot` calls, in any number of
    processes, over one snapshot root.  Every system call is one step; a step
    may raise, and a process may die between any two steps. */
module SnapshotProtocol {
  import opened Common

  /** A snapshot and its metadata file share a stem: `<stem>.yml` and
      `<stem>.metadata.json`.  The stem carries only twelve digits of the hash,
      so two jobs with different hashes may share one. */
  datatype Kind = Snapshot | Sidecar

  datatype Path = Path(kind: Kind, stem: string)

  datatype File = File(data: Bytes, readonly: bool)

  datatype Job = Job(
    process: nat,
    stem: string,
    source: Bytes,
    contentHash: Digest,
    metadata: Metadata,
    required: Metadata)
  {
    function FileName(): string { stem + ".yml" }

    function Record(): Metadata {
      metadata["local_file" := FileName()]["sha256" := contentHash]
    }

    /** What the call writes when it creates the file of this kind. */
    function Payload(c: Codec, kind: Kind): Bytes {
      if kind == Snapshot then source else c.encode(Record())
    }

    /** The identity check made on metadata that was already there. */
    predicate Identifies(m: Metadata) {
      && "local_file" in m && m["local_file"] == FileName()
      && "sha256" in m && m["sha256"] == contentHash
    }

    predicate Compatible(m: Metadata) {
      Identifies(m) && forall k | k in required :: k in m && m[k] == required[k]
    }
  }

  /** `_publish_exclusive_readonly`, call by call; `Discard` is its `finally` after a failure. */
  datatype PublishStep = Create | Write(offset: nat) | Flush | ReadBack | Protect | Discard

  /** `_read_existing_exclusive_readonly`, and the check of what was read. */
  datatype AdoptStep = Open | ProtectRead(data: Bytes) | Check(bytes: Bytes)

  /** The program counter names the system call that comes next. */
  datatype Pc =
    | CheckSource
    | ThreadLock
    | FileLock
    | Publish(kind: Kind, step: PublishStep)
    | Adopt(kind: Kind, doing: AdoptStep)
    | BuildResult
    | Undo(kind: Kind)                       // the `except BaseException` block
    | FileUnlock(good: bool)
    | ThreadUnlock(good: bool)
    | Returned
    | Raised
    | Dead

  datatype Installer = Installer(job: Job, pc: Pc, created: bool, sidecarCreated: bool)
  {
    predicate InBody() {
      pc.Publish? || pc.Adopt? || pc.BuildResult? || pc.Undo?
    }

    predicate HoldsFileLock() {
      InBody() || pc.FileUnlock?
    }

    predicate HoldsThreadLock() {
      HoldsFileLock() || pc.FileLock? || pc.ThreadUnlock?
    }

    /** The body of the lock has run to its `return`. */
    predicate Succeeded() {
      pc == FileUnlock(true) || pc == ThreadUnlock(true) || pc == Returned
    }

    predicate Leaving() {
      pc.FileUnlock? || pc.ThreadUnlock? || pc.Returned? || pc.Raised? || pc.Dead?
    }

    /** Past the creation of the file, before `_publish_exclusive_readonly` returns. */
    predicate Publishing(kind: Kind) {
      pc.Publish? && pc.kind == kind && !pc.step.Create?
    }

    /** Past `_publish_exclusive_readonly(target, ...)`, still able to roll back. */
    predicate Installing() {
      (pc.Publish? && pc.kind == Sidecar) || pc.Adopt? || pc.BuildResult? || pc.Undo?
    }

    /** The file is this call's own work in this lock tenure and may still be removed by it. */
    predicate Owns(kind: Kind) {
      || Publishing(kind)
      || (kind == Snapshot && Installing() && created)
      || (kind == Sidecar && sidecarCreated && (pc.BuildResult? || pc == Undo(Sidecar)))
    }

    function At(next: Pc): Installer { this.(pc := next) }

    /** Where an exception inside the `try` block leads. */
    function Handler(): Installer {
      if !created then At(FileUnlock(false))
      else At(Undo(if sidecarCreated then Sidecar else Snapshot))
    }
  }

  /** The shared state as one call sees it, together with its own registers. */
  datatype View = View(
    me: Installer,
    files: map<Path, File>,
    threadLocks: map<(nat, string), nat>,
    fileLocks: map<string, nat>)
  {
    function To(next: Installer): View { this.(me := next) }

    predicate SameLocks(v: View) {
      threadLocks == v.threadLocks && fileLocks == v.fileLocks
    }

    function Store(path: Path, file: File): View { this.(files := files[path := file]) }

    function Remove(kind: Kind, ok: bool): View {
      if ok then this.(files := files - {Path(kind, me.job.stem)}) else this
    }
  }

  datatype State = State(
    files: map<Path, File>,
    installers: seq<Installer>,
    threadLocks: map<(nat, string), nat>,
    fileLocks: map<string, nat>)
  {
    function ViewOf(i: nat): View
      requires i < |installers|
    {
      View(installers[i], files, threadLocks, fileLocks)
    }

    function After(i: nat, v: View): State
      requires i < |installers|
    {
      State(v.files, installers[i := v.me], v.threadLocks, v.fileLocks)
    }
  }

  /** A step either proceeds or raises.  `amount` is how many bytes a write got
      through, also when it then fails (a short write or a crash in the middle). */
  datatype Choice = Proceed(amount: nat) | Fault(amount: nat)

  datatype Event = Act(installer: nat, choice: Choice) | Die(process: nat)

  function Min(a: nat, b: nat): nat { if a <= b then a else b }

  function SystemCall(c: Codec, v: View, i: nat, choice: Choice): View {
    match v.me.pc
    case Publish(kind, step) => PublishCall(c, v, kind, step, choice)
    case Adopt(kind, doing) => AdoptCall(c, v, kind, doing, choice.Proceed?)
    case BuildResult =>
      v.To(if choice.Proceed? then v.me.At(FileUnlock(true)) else v.me.Handler())
    case Undo(kind) =>
      v.Remove(kind, choice.Proceed?)
      .To(v.me.At(if choice.Proceed? && kind == Sidecar then Undo(Snapshot) else FileUnlock(false)))
    case _ => LockCall(c, v, i, choice.Proceed?)
  }

  /** The check of the source, and `_target_lock` around everything else. */
  function LockCall(c: Codec, v: View, i: nat, ok: bool): View {
    var me := v.me;
    var job := me.job;
    var key := (job.process, job.stem);
    match me.pc
    case CheckSource =>
      v.To(me.At(if ok && c.hash(job.source) == job.contentHash then ThreadLock else Raised))
    case ThreadLock =>
      if !ok then v.To(me.At(Raised))
      else if key in v.threadLocks then v
      else v.To(me.At(FileLock)).(threadLocks := v.threadLocks[key := i])
    case FileLock =>
      if !ok then v.To(me.At(ThreadUnlock(false)))
      else if job.stem in v.fileLocks then v
      else v.To(me.At(Publish(Snapshot, Create))).(fileLocks := v.fileLocks[job.stem := i])
    case FileUnlock(good) =>
      v.To(me.At(ThreadUnlock(ok && good))).(fileLocks := v.fileLocks - {job.stem})
    case ThreadUnlock(good) =>
      v.To(me.At(if good then Returned else Raised)).(threadLocks := v.threadLocks - {key})
    case _ => v
  }

  function PublishCall(c: Codec, v: View, kind: Kind, step: PublishStep, choice: Choice): (r: View)
    ensures r.SameLocks(v) && r.me.job == v.me.job
  {
    var me := v.me;
    var ok := choice.Proceed?;
    var path := Path(kind, me.job.stem);
    var payload := me.job.Payload(c, kind);
    match step
    case Create =>
      // CREATE_NEW fails softly when the file is there, and hands over an empty file otherwise.
      if !ok then v.To(if kind == Snapshot then me.At(FileUnlock(false)) else me.Handler())
      else if path in v.files then v.To(me.At(Adopt(kind, Open)))
      else v.Store(path, File([], false)).To(me.At(Publish(kind, Write(0))))
    case Write(offset) =>
      if offset >= |payload| then v.To(me.At(Publish(kind, Flush)))
      else
        var end := Min(offset + choice.amount, |payload|);
        v.Store(path, File(payload[..end], false))
        .To(me.At(Publish(kind, if ok then Write(end) else Discard)))
    case Flush => v.To(me.At(Publish(kind, if ok then ReadBack else Discard)))
    case ReadBack =>
      var same := path in v.files && v.files[path].data == payload;
      v.To(me.At(Publish(kind, if ok && same then Protect else Discard)))
    case Protect =>
      if ok && path in v.files then
        v.Store(path, v.files[path].(readonly := true))
        .To(if kind == Snapshot then me.At(Adopt(Snapshot, Check(me.job.source))).(created := true)
            else me.At(BuildResult).(sidecarCreated := true))
      else v.To(me.At(Publish(kind, Discard)))
    case Discard =>
      v.Remove(kind, ok).To(if kind == Snapshot then me.At(FileUnlock(false)) else me.Handler())
  }

  function AdoptCall(c: Codec, v: View, kind: Kind, doing: AdoptStep, ok: bool): (r: View)
    ensures r.SameLocks(v) && r.me.job == v.me.job
  {
    var me := v.me;
    var path := Path(kind, me.job.stem);
    match doing
    case Open =>
      v.To(if ok && path in v.files then me.At(Adopt(kind, ProtectRead(v.files[path].data))) else me.Handler())
    case ProtectRead(data) =>
      if ok && path in v.files then
        v.Store(path, v.files[path].(readonly := true)).To(me.At(Adopt(kind, Check(data))))
      else v.To(me.Handler())
    case Check(data) =>
      if kind == Snapshot then
        v.To(if ok && c.hash(data) == me.job.contentHash then me.At(Publish(Sidecar, Create)) else me.Handler())
      else
        var m := c.decode(data);
        v.To(if ok && m.Some? && me.job.Compatible(m.value) then me.At(BuildResult) else me.Handler())
  }

  function Act1(c: Codec, s: State, i: nat, choice: Choice): State
    requires i < |s.installers|
  {
    s.After(i, SystemCall(c, s.ViewOf(i), i, choice))
  }

  /** Death of a process ends all its calls; the operating system drops its locks. */
  function Kill(s: State, p: nat): State {
    s.(installers := seq(|s.installers|, i requires 0 <= i < |s.installers| =>
         if s.installers[i].job.process == p && !s.installers[i].pc.Returned? && !s.installers[i].pc.Raised?
         then s.installers[i].At(Dead) else s.installers[i]),
       threadLocks := map k | k in s.threadLocks && k.0 != p :: s.threadLocks[k],
       fileLocks := map k | k in s.fileLocks
                            && !(s.fileLocks[k] < |s.installers| && s.installers[s.fileLocks[k]].job.process == p)
                            :: s.fileLocks[k])
  }

  function Step(c: Codec, s: State, e: Event): State {
    match e
    case Act(i, choice) => if i < |s.installers| then Act1(c, s, i, choice) else s
    case Die(p) => Kill(s, p)
  }

  function Run(c: Codec, s: State, events: seq<Event>): State {
    if events == [] then s
    else Step(c, Run(c, s, events[..|events| - 1]), events[|events| - 1])
  }

  /** Any jobs, any files left by earlier history (including partial ones), no call under way. */
  predicate Init(s: State) {
    && s.threadLocks == map[] && s.fileLocks == map[]
    && forall i | 0 <= i < |s.installers| ::
         s.installers[i].pc == CheckSource && !s.installers[i].created && !s.installers[i].sidecarCreated
  }

  // ---------------------------------------------------------------- invariant

  /** The two lock tables and the program counters agree. */
  ghost predicate Locked(s: State, i: nat)
    requires i < |s.installers|
  {
    var me := s.installers[i];
    && (me.HoldsFileLock() ==> me.job.stem in s.fileLocks && s.fileLocks[me.job.stem] == i)
    && (me.HoldsThreadLock() ==>
          (me.job.process, me.job.stem) in s.threadLocks
          && s.threadLocks[(me.job.process, me.job.stem)] == i)
  }

  ghost predicate NoStrayLock(s: State) {
    && (forall stem | stem in s.fileLocks ::
          s.fileLocks[stem] < |s.installers|
          && s.installers[s.fileLocks[stem]].HoldsFileLock()
          && s.installers[s.fileLocks[stem]].job.stem == stem)
    && (forall key | key in s.threadLocks ::
          s.threadLocks[key] < |s.installers|
          && s.installers[s.threadLocks[key]].HoldsThreadLock()
          && (s.installers[s.threadLocks[key]].job.process, s.installers[s.threadLocks[key]].job.stem) == key)
  }

  /** A complete, protected snapshot with the promised hash. */
  predicate GoodSnapshot(c: Codec, files: map<Path, File>, job: Job) {
    var path := Path(Snapshot, job.stem);
    && path in files && files[path].readonly
    && c.hash(files[path].data) == job.contentHash
  }

  predicate GoodSidecar(c: Codec, files: map<Path, File>, job: Job) {
    var path := Path(Sidecar, job.stem);
    && path in files && files[path].readonly
    && c.decode(files[path].data).Some?
    && job.Identifies(c.decode(files[path].data).value)
  }

  predicate Installed(c: Codec, files: map<Path, File>, job: Job) {
    GoodSnapshot(c, files, job) && GoodSidecar(c, files, job)
  }

  /** What the files look like at each program point of one call. */
  predicate Local(c: Codec, files: map<Path, File>, me: Installer) {
    var job := me.job;
    && (me.pc.ThreadLock? || me.pc.FileLock? || me.InBody() || me.Succeeded() ==> c.hash(job.source) == job.contentHash)
    && (me.created ==> me.Installing() || me.Leaving())
    && (me.sidecarCreated ==> me.pc.BuildResult? || me.pc.Undo? || me.Leaving())
    && (me.pc.Undo? ==> me.created && (me.pc.kind == Sidecar ==> me.sidecarCreated))
    && (me.Owns(Snapshot) ==> Path(Snapshot, job.stem) in files)
    && (me.Owns(Sidecar) ==> Path(Sidecar, job.stem) in files)
    && (me.pc.Publish? ==> PublishLocal(c, files, job, me.pc.kind, me.pc.step))
    && (me.pc.Adopt? ==> AdoptLocal(c, files, job, me.pc.kind, me.pc.doing))
    && (me.pc.BuildResult? || me.Succeeded() ==> Installed(c, files, job))
  }

  predicate PublishLocal(c: Codec, files: map<Path, File>, job: Job, kind: Kind, step: PublishStep) {
    var path := Path(kind, job.stem);
    && (kind == Sidecar ==> GoodSnapshot(c, files, job))
    && (step.Write? ==> path in files && step.offset <= |job.Payload(c, kind)|
                        && files[path].data == job.Payload(c, kind)[..step.offset])
    && (step.Flush? || step.ReadBack? || step.Protect? ==>
          path in files && files[path].data == job.Payload(c, kind))
  }

  predicate AdoptLocal(c: Codec, files: map<Path, File>, job: Job, kind: Kind, doing: AdoptStep) {
    var path := Path(kind, job.stem);
    && path in files
    && (kind == Sidecar ==> GoodSnapshot(c, files, job))
    && (doing.ProtectRead? ==> files[path].data == doing.data)
    && (doing.Check? ==> files[path].data == doing.bytes && files[path].readonly)
  }

  /** Nobody may still roll back a file that a successful call relies on. */
  ghost predicate NoConflict(s: State, i: nat, j: nat)
    requires i < |s.installers| && j < |s.installers|
  {
    s.installers[j].Succeeded() && s.installers[i].job.stem == s.installers[j].job.stem ==>
      !s.installers[i].Owns(Snapshot) && !s.installers[i].Owns(Sidecar)
  }

  ghost predicate Inv(c: Codec, s: State) {
    && NoStrayLock(s)
    && (forall i | 0 <= i < |s.installers| :: Locked(s, i))
    && (forall i | 0 <= i < |s.installers| :: Local(c, s.files, s.installers[i]))
    && (forall i, j | 0 <= i < |s.installers| && 0 <= j < |s.installers| :: NoConflict(s, i, j))
  }

  // ------------------------------------------------------------- preservation

  predicate SameAt(old_: map<Path, File>, new_: map<Path, File>, path: Path) {
    (path in old_ <==> path in new_) && (path in old_ ==> old_[path] == new_[path])
  }

  /** All that a step may do to one file: under the file lock of its own stem, change
      what it owns, create what is absent, or protect what is there. */
  predicate Touches(me: Installer, old_: map<Path, File>, new_: map<Path, File>, path: Path) {
    && path.stem == me.job.stem
    && me.HoldsFileLock()
    && (|| path !in old_
        || me.Owns(path.kind)
        || (path in new_ && new_[path] == old_[path].(readonly := true)))
  }

  ghost predicate TouchesOnly(me: Installer, old_: map<Path, File>, new_: map<Path, File>) {
    forall path :: SameAt(old_, new_, path) || Touches(me, old_, new_, path)
  }

  /** Each lock is kept, taken while free, or given back. */
  predicate LockDiscipline(v: View, r: View, i: nat) {
    var stem := v.me.job.stem;
    var key := (v.me.job.process, stem);
    && r.me.job == v.me.job
    && (if v.me.HoldsFileLock() == r.me.HoldsFileLock() then r.fileLocks == v.fileLocks
        else if r.me.HoldsFileLock() then stem !in v.fileLocks && r.fileLocks == v.fileLocks[stem := i]
        else r.fileLocks == v.fileLocks - {stem})
    && (if v.me.HoldsThreadLock() == r.me.HoldsThreadLock() then r.threadLocks == v.threadLocks
        else if r.me.HoldsThreadLock() then key !in v.threadLocks && r.threadLocks == v.threadLocks[key := i]
        else r.threadLocks == v.threadLocks - {key})
  }

  /** Success and ownership arise only under the lock, and ownership only of an absent file. */
  predicate Claims(v: View, r: View) {
    && (r.me.Succeeded() ==> v.me.Succeeded() || v.me.HoldsFileLock())
    && (forall kind :: r.me.Owns(kind) && !v.me.Owns(kind) ==>
                         v.me.HoldsFileLock() && Path(kind, v.me.job.stem) !in v.files)
  }

  lemma TakingDiscipline(c: Codec, v: View, i: nat, ok: bool)
    requires !v.me.pc.FileUnlock? && !v.me.pc.ThreadUnlock?
    ensures LockDiscipline(v, LockCall(c, v, i, ok), i)
  {
    match v.me.pc
    case ThreadLock =>
    case FileLock =>
    case _ =>
  }

  lemma ReleasingDiscipline(c: Codec, v: View, i: nat, ok: bool)
    requires v.me.pc.FileUnlock? || v.me.pc.ThreadUnlock?
    ensures LockDiscipline(v, LockCall(c, v, i, ok), i)
  {}

  /** Publishing and adopting stay under the lock and never finish the call. */
  lemma PublishCallStays(c: Codec, v: View, choice: Choice)
    requires v.me.pc.Publish?
    ensures var r := PublishCall(c, v, v.me.pc.kind, v.me.pc.step, choice);
            r.me.HoldsFileLock() && !r.me.Succeeded()
  {
    hide PublishCall;
    if v.me.pc.step.Create? || v.me.pc.step.Write? {
      WritingStays(c, v, choice);
    } else {
      FinishingStays(c, v, choice);
    }
  }

  lemma WritingStays(c: Codec, v: View, choice: Choice)
    requires v.me.pc.Publish? && (v.me.pc.step.Create? || v.me.pc.step.Write?)
    ensures var r := PublishCall(c, v, v.me.pc.kind, v.me.pc.step, choice);
            r.me.HoldsFileLock() && !r.me.Succeeded()
  {}

  lemma FinishingStays(c: Codec, v: View, choice: Choice)
    requires v.me.pc.Publish? && !v.me.pc.step.Create? && !v.me.pc.step.Write?
    ensures var r := PublishCall(c, v, v.me.pc.kind, v.me.pc.step, choice);
            r.me.HoldsFileLock() && !r.me.Succeeded()
  {}

  lemma AdoptCallStays(c: Codec, v: View, ok: bool)
    requires v.me.pc.Adopt?
    ensures var r := AdoptCall(c, v, v.me.pc.kind, v.me.pc.doing, ok);
            r.me.HoldsFileLock() && !r.me.Succeeded()
  {}

  lemma CallDiscipline(c: Codec, v: View, i: nat, choice: Choice)
    ensures LockDiscipline(v, SystemCall(c, v, i, choice), i)
  {
    hide PublishCall, AdoptCall, LockCall;
    if v.me.pc.Publish? {
      PublishCallStays(c, v, choice);
    } else if v.me.pc.Adopt? {
      AdoptCallStays(c, v, choice.Proceed?);
    } else {
      if v.me.pc.FileUnlock? || v.me.pc.ThreadUnlock? {
        ReleasingDiscipline(c, v, i, choice.Proceed?);
      } else {
        TakingDiscipline(c, v, i, choice.Proceed?);
      }
    }
  }

  lemma PublishCallClaims(c: Codec, v: View, choice: Choice)
    requires v.me.pc.Publish? && Local(c, v.files, v.me)
    ensures Claims(v, PublishCall(c, v, v.me.pc.kind, v.me.pc.step, choice))
  {
    PublishCallStays(c, v, choice);
    LocalFlags(c, v.files, v.me);
    hide Local;
  }

  lemma AdoptCallClaims(c: Codec, v: View, ok: bool)
    requires v.me.pc.Adopt? && Local(c, v.files, v.me)
    ensures Claims(v, AdoptCall(c, v, v.me.pc.kind, v.me.pc.doing, ok))
  {
    AdoptCallStays(c, v, ok);
    LocalFlags(c, v.files, v.me);
    hide Local;
  }

  /** The registers alone, apart from the files. */
  lemma LocalFlags(c: Codec, files: map<Path, File>, me: Installer)
    requires Local(c, files, me)
    ensures me.created ==> me.Installing() || me.Leaving()
    ensures me.sidecarCreated ==> me.pc.BuildResult? || me.pc.Undo? || me.Leaving()
    ensures me.pc.Undo? ==> me.created && (me.pc.kind == Sidecar ==> me.sidecarCreated)
    ensures me.Succeeded() ==> Path(Snapshot, me.job.stem) in files && Path(Sidecar, me.job.stem) in files
  {}

  lemma LockCallClaims(c: Codec, v: View, i: nat, ok: bool)
    requires !v.me.InBody() && (v.me.created ==> v.me.Installing() || v.me.Leaving())
    ensures Claims(v, LockCall(c, v, i, ok))
  {}

  lemma CallClaims(c: Codec, v: View, i: nat, choice: Choice)
    requires Local(c, v.files, v.me)
    ensures Claims(v, SystemCall(c, v, i, choice))
  {
    LocalFlags(c, v.files, v.me);
    hide PublishCall, AdoptCall, LockCall, Local;
    if v.me.pc.Publish? {
      PublishCallClaims(c, v, choice);
    } else if v.me.pc.Adopt? {
      AdoptCallClaims(c, v, choice.Proceed?);
    } else if !v.me.InBody() {
      LockCallClaims(c, v, i, choice.Proceed?);
    }
  }

  lemma PublishCallTouches(c: Codec, v: View, choice: Choice)
    requires v.me.pc.Publish?
    ensures TouchesOnly(v.me, v.files, PublishCall(c, v, v.me.pc.kind, v.me.pc.step, choice).files)
  {}

  lemma AdoptCallTouches(c: Codec, v: View, ok: bool)
    requires v.me.pc.Adopt?
    ensures TouchesOnly(v.me, v.files, AdoptCall(c, v, v.me.pc.kind, v.me.pc.doing, ok).files)
  {}

  lemma CallTouches(c: Codec, v: View, i: nat, choice: Choice)
    requires Local(c, v.files, v.me)
    ensures TouchesOnly(v.me, v.files, SystemCall(c, v, i, choice).files)
  {
    hide PublishCall, AdoptCall;
    if v.me.pc.Publish? {
      PublishCallTouches(c, v, choice);
    } else if v.me.pc.Adopt? {
      AdoptCallTouches(c, v, choice.Proceed?);
    }
  }

  lemma WritingLocal(c: Codec, v: View, choice: Choice)
    requires Local(c, v.files, v.me) && v.me.pc.Publish? && (v.me.pc.step.Create? || v.me.pc.step.Write?)
    ensures var r := PublishCall(c, v, v.me.pc.kind, v.me.pc.step, choice); Local(c, r.files, r.me)
  {}

  lemma ProtectingLocal(c: Codec, v: View, choice: Choice)
    requires Local(c, v.files, v.me) && v.me.pc.Publish? && v.me.pc.step.Protect?
    requires c.decode(c.encode(v.me.job.Record())) == Some(v.me.job.Record())
    requires v.me.job.Identifies(v.me.job.Record())
    ensures var r := PublishCall(c, v, v.me.pc.kind, v.me.pc.step, choice); Local(c, r.files, r.me)
  {}

  lemma FinishingLocal(c: Codec, v: View, choice: Choice)
    requires Local(c, v.files, v.me) && v.me.pc.Publish?
    requires v.me.pc.step.Flush? || v.me.pc.step.ReadBack? || v.me.pc.step.Discard?
    ensures var r := PublishCall(c, v, v.me.pc.kind, v.me.pc.step, choice); Local(c, r.files, r.me)
  {}

  lemma RecordIdentifies(job: Job)
    ensures job.Identifies(job.Record())
  {}

  lemma PublishCallLocal(c: Codec, v: View, choice: Choice)
    requires Local(c, v.files, v.me) && c.RoundTrips() && v.me.pc.Publish?
    ensures var r := PublishCall(c, v, v.me.pc.kind, v.me.pc.step, choice); Local(c, r.files, r.me)
  {
    hide Local, PublishCall;
    if v.me.pc.step.Create? || v.me.pc.step.Write? {
      WritingLocal(c, v, choice);
    } else if v.me.pc.step.Protect? {
      RecordIdentifies(v.me.job);
      ProtectingLocal(c, v, choice);
    } else {
      FinishingLocal(c, v, choice);
    }
  }

  lemma ReadingLocal(c: Codec, v: View, ok: bool)
    requires Local(c, v.files, v.me) && v.me.pc.Adopt? && !v.me.pc.doing.Check?
    ensures var r := AdoptCall(c, v, v.me.pc.kind, v.me.pc.doing, ok); Local(c, r.files, r.me)
  {}

  lemma CheckingLocal(c: Codec, v: View, ok: bool)
    requires Local(c, v.files, v.me) && v.me.pc.Adopt? && v.me.pc.doing.Check?
    ensures var r := AdoptCall(c, v, v.me.pc.kind, v.me.pc.doing, ok); Local(c, r.files, r.me)
  {}

  lemma AdoptCallLocal(c: Codec, v: View, ok: bool)
    requires Local(c, v.files, v.me) && v.me.pc.Adopt?
    ensures var r := AdoptCall(c, v, v.me.pc.kind, v.me.pc.doing, ok); Local(c, r.files, r.me)
  {
    hide Local, AdoptCall;
    if v.me.pc.doing.Check? { CheckingLocal(c, v, ok); } else { ReadingLocal(c, v, ok); }
  }

  lemma EnteringLocal(c: Codec, v: View, i: nat, ok: bool)
    requires Local(c, v.files, v.me) && (v.me.pc.CheckSource? || v.me.pc.ThreadLock? || v.me.pc.FileLock?)
    ensures var r := LockCall(c, v, i, ok); Local(c, r.files, r.me)
  {
    hide AdoptLocal, Installed;
  }

  lemma LeavingLocal(c: Codec, v: View, i: nat, ok: bool)
    requires Local(c, v.files, v.me) && v.me.Leaving()
    ensures var r := LockCall(c, v, i, ok); Local(c, r.files, r.me)
  {
    hide AdoptLocal, PublishLocal, Installed;
  }

  /** The result is built, or the rollback removes what was created. */
  lemma FinalCallLocal(c: Codec, v: View, i: nat, choice: Choice)
    requires Local(c, v.files, v.me) && (v.me.pc.BuildResult? || v.me.pc.Undo?)
    ensures var r := SystemCall(c, v, i, choice); Local(c, r.files, r.me)
  {
    hide PublishCall, AdoptCall, LockCall, PublishLocal, AdoptLocal, Installed;
  }

  lemma CallLocal(c: Codec, v: View, i: nat, choice: Choice)
    requires Local(c, v.files, v.me) && c.RoundTrips()
    ensures var r := SystemCall(c, v, i, choice); Local(c, r.files, r.me)
  {
    hide PublishCall, AdoptCall, LockCall, Local;
    if v.me.pc.Publish? {
      PublishCallLocal(c, v, choice);
    } else if v.me.pc.Adopt? {
      AdoptCallLocal(c, v, choice.Proceed?);
    } else if v.me.pc.BuildResult? || v.me.pc.Undo? {
      FinalCallLocal(c, v, i, choice);
    } else if v.me.Leaving() {
      LeavingLocal(c, v, i, choice.Proceed?);
    } else {
      EnteringLocal(c, v, i, choice.Proceed?);
    }
  }

  lemma ActKeepsLocked(c: Codec, s: State, i: nat, choice: Choice, j: nat)
    requires i < |s.installers| && j < |s.installers| && Locked(s, i) && Locked(s, j)
    ensures Locked(Act1(c, s, i, choice), j)
  {
    CallDiscipline(c, s.ViewOf(i), i, choice);
    hide SystemCall;
  }

  lemma ActKeepsNoStrayLock(c: Codec, s: State, i: nat, choice: Choice)
    requires i < |s.installers| && Locked(s, i) && NoStrayLock(s)
    ensures NoStrayLock(Act1(c, s, i, choice))
  {
    CallDiscipline(c, s.ViewOf(i), i, choice);
    hide SystemCall;
  }

  lemma ActKeepsOtherLocal(c: Codec, s: State, i: nat, choice: Choice, j: nat)
    requires i < |s.installers| && j < |s.installers| && i != j && Inv(c, s)
    ensures var s' := Act1(c, s, i, choice); Local(c, s'.files, s.installers[j])
  {
    var v := s.ViewOf(i);
    var r := SystemCall(c, v, i, choice);
    var you := s.installers[j];
    assert Local(c, s.files, v.me);
    assert Local(c, s.files, you) && Locked(s, i) && Locked(s, j) && NoConflict(s, i, j);
    CallTouches(c, v, i, choice);
    var p, q := Path(Snapshot, you.job.stem), Path(Sidecar, you.job.stem);
    assert SameAt(s.files, r.files, p) || Touches(v.me, s.files, r.files, p);
    assert SameAt(s.files, r.files, q) || Touches(v.me, s.files, r.files, q);
    OtherLocal(c, s.files, r.files, v.me, you);
  }

  /** A call outside the file lock, or with another stem, does not notice the step. */
  lemma OtherLocal(c: Codec, old_: map<Path, File>, new_: map<Path, File>, me: Installer, you: Installer)
    requires Local(c, old_, you)
    requires me.job.stem == you.job.stem ==>
               && !(me.HoldsFileLock() && you.HoldsFileLock())
               && (you.Succeeded() ==> !me.Owns(Snapshot) && !me.Owns(Sidecar))
    requires var p := Path(Snapshot, you.job.stem); SameAt(old_, new_, p) || Touches(me, old_, new_, p)
    requires var p := Path(Sidecar, you.job.stem); SameAt(old_, new_, p) || Touches(me, old_, new_, p)
    ensures Local(c, new_, you)
  {}

  /** Success is new only under the lock, where nobody else is; ownership is new only of a
      file that no successful call can have. */
  lemma NoNewConflict(s: State, r: View, i: nat, a: nat, b: nat)
    requires i < |s.installers| && a < |s.installers| && b < |s.installers|
    requires LockDiscipline(s.ViewOf(i), r, i) && Claims(s.ViewOf(i), r)
    requires s.installers[b].Succeeded() ==>
               Path(Snapshot, s.installers[b].job.stem) in s.files && Path(Sidecar, s.installers[b].job.stem) in s.files
    requires NoConflict(s, a, b) && Locked(s, a) && Locked(s, b)
    ensures NoConflict(s.After(i, r), a, b)
  {}

  lemma ActKeepsNoConflict(c: Codec, s: State, i: nat, choice: Choice, a: nat, b: nat)
    requires i < |s.installers| && a < |s.installers| && b < |s.installers| && Inv(c, s)
    ensures NoConflict(Act1(c, s, i, choice), a, b)
  {
    var v := s.ViewOf(i);
    hide SystemCall, Local, NoStrayLock, Locked, NoConflict, LockDiscipline, Claims;
    CallDiscipline(c, v, i, choice);
    CallClaims(c, v, i, choice);
    LocalFlags(c, s.files, s.installers[b]);
    NoNewConflict(s, SystemCall(c, v, i, choice), i, a, b);
  }

  lemma ActKeepsInv(c: Codec, s: State, i: nat, choice: Choice)
    requires i < |s.installers| && Inv(c, s) && c.RoundTrips()
    ensures Inv(c, Act1(c, s, i, choice))
  {
    var s' := Act1(c, s, i, choice);
    hide SystemCall, Local, NoStrayLock, Locked, NoConflict;
    ActKeepsNoStrayLock(c, s, i, choice);
    forall j | 0 <= j < |s.installers| ensures Locked(s', j) {
      ActKeepsLocked(c, s, i, choice, j);
    }
    forall j | 0 <= j < |s.installers| ensures Local(c, s'.files, s'.installers[j]) {
      if j == i { CallLocal(c, s.ViewOf(i), i, choice); } else { ActKeepsOtherLocal(c, s, i, choice, j); }
    }
    forall a, b | 0 <= a < |s.installers| && 0 <= b < |s.installers| ensures NoConflict(s', a, b) {
      ActKeepsNoConflict(c, s, i, choice, a, b);
    }
  }

  lemma KillKeepsLocks(s: State, p: nat)
    requires NoStrayLock(s) && forall i | 0 <= i < |s.installers| :: Locked(s, i)
    ensures NoStrayLock(Kill(s, p)) && forall i | 0 <= i < |s.installers| :: Locked(Kill(s, p), i)
  {
    forall i | 0 <= i < |s.installers| ensures Locked(Kill(s, p), i) {
      assert Locked(s, i);
    }
  }

  lemma KilledLocal(c: Codec, files: map<Path, File>, me: Installer)
    requires Local(c, files, me)
    ensures Local(c, files, me.At(Dead))
  {}

  lemma KillKeepsInv(c: Codec, s: State, p: nat)
    requires Inv(c, s)
    ensures Inv(c, Kill(s, p))
  {
    var s' := Kill(s, p);
    KillKeepsLocks(s, p);
    hide Local, NoStrayLock, Locked;
    forall i | 0 <= i < |s'.installers| ensures Local(c, s'.files, s'.installers[i]) {
      KilledLocal(c, s.files, s.installers[i]);
    }
    forall i, j | 0 <= i < |s'.installers| && 0 <= j < |s'.installers| ensures NoConflict(s', i, j) {
      assert NoConflict(s, i, j);
    }
  }

  lemma StepKeepsInv(c: Codec, s: State, e: Event)
    requires Inv(c, s) && c.RoundTrips()
    ensures Inv(c, Step(c, s, e))
  {
    match e
    case Die(p) => KillKeepsInv(c, s, p);
    case Act(i, choice) => if i < |s.installers| { ActKeepsInv(c, s, i, choice); }
  }

  /** The invariant holds in every reachable state. */
  lemma {:induction false} Reachable(c: Codec, s0: State, events: seq<Event>)
    requires Init(s0) && c.RoundTrips()
    ensures Inv(c, Run(c, s0, events))
  {
    if events != [] {
      Reachable(c, s0, events[..|events| - 1]);
      StepKeepsInv(c, Run(c, s0, events[..|events| - 1]), events[|events| - 1]);
    }
  }

  // ------------------------------------------------------------ main theorems

  /** One step leaves the files of a successful call alone. */
  lemma SuccessSurvivesStep(c: Codec, s: State, e: Event, j: nat)
    requires Inv(c, s) && c.RoundTrips()
    requires j < |s.installers| && s.installers[j].Succeeded()
    ensures var s' := Step(c, s, e); var stem := s.installers[j].job.stem;
            && |s'.installers| == |s.installers| && s'.installers[j].job == s.installers[j].job
            && Installed(c, s.files, s.installers[j].job)
            && SameAt(s.files, s'.files, Path(Snapshot, stem))
            && SameAt(s.files, s'.files, Path(Sidecar, stem))
  {
    var you := s.installers[j];
    assert Local(c, s.files, you);
    if e.Act? && e.installer < |s.installers| {
      var v := s.ViewOf(e.installer);
      var r := SystemCall(c, v, e.installer, e.choice);
      assert Local(c, s.files, v.me) && NoConflict(s, e.installer, j);
      CallTouches(c, v, e.installer, e.choice);
      CallDiscipline(c, v, e.installer, e.choice);
      var p, q := Path(Snapshot, you.job.stem), Path(Sidecar, you.job.stem);
      assert SameAt(s.files, r.files, p) || Touches(v.me, s.files, r.files, p);
      assert SameAt(s.files, r.files, q) || Touches(v.me, s.files, r.files, q);
    }
    hide SystemCall, Local;
  }

  /** Call `j` is as it was, with the same complete pair of files. */
  ghost predicate StillInstalled(c: Codec, s: State, s': State, j: nat)
    requires j < |s.installers|
  {
    var job := s.installers[j].job;
    && Installed(c, s.files, job) && Installed(c, s'.files, job)
    && s'.files[Path(Snapshot, job.stem)] == s.files[Path(Snapshot, job.stem)]
    && s'.files[Path(Sidecar, job.stem)] == s.files[Path(Sidecar, job.stem)]
    && j < |s'.installers| && s'.installers[j] == s.installers[j]
  }

  lemma InstalledNow(c: Codec, s: State, j: nat)
    requires Inv(c, s) && j < |s.installers| && s.installers[j].pc == Returned
    ensures StillInstalled(c, s, s, j)
  {
    assert Local(c, s.files, s.installers[j]);
  }

  lemma InstalledNext(c: Codec, s: State, s': State, e: Event, j: nat)
    requires j < |s.installers| && s.installers[j].pc == Returned && StillInstalled(c, s, s', j)
    requires Inv(c, s') && c.RoundTrips()
    ensures StillInstalled(c, s, Step(c, s', e), j)
  {
    hide Step, Inv;
    SuccessSurvivesStep(c, s', e, j);
    ReturnedStays(c, s', e, j);
  }

  /** Files of a successful call never change again, whatever happens next: more calls,
      exceptions, deaths of processes (including its own). */
  lemma {:induction false} InstalledForever(c: Codec, s0: State, events: seq<Event>, more: seq<Event>, j: nat)
    requires Init(s0) && c.RoundTrips()
    requires var s := Run(c, s0, events); j < |s.installers| && s.installers[j].pc == Returned
    ensures StillInstalled(c, Run(c, s0, events), Run(c, s0, events + more), j)
  {
    hide Step, Inv, Init, StillInstalled;
    if more == [] {
      assert events + more == events;
      Reachable(c, s0, events);
      InstalledNow(c, Run(c, s0, events), j);
    } else {
      var before := more[..|more| - 1];
      var all := events + more;
      assert all[..|all| - 1] == events + before;
      InstalledForever(c, s0, events, before, j);
      Reachable(c, s0, events + before);
      InstalledNext(c, Run(c, s0, events), Run(c, s0, events + before), more[|more| - 1], j);
    }
  }

  lemma ReturnedStays(c: Codec, s: State, e: Event, j: nat)
    requires j < |s.installers| && s.installers[j].pc == Returned
    ensures j < |Step(c, s, e).installers| && Step(c, s, e).installers[j] == s.installers[j]
  {}

  /** With a collision-free hash the installed bytes are the caller's own: no partial file
      of a crashed call, and no other feed that shares twelve hash digits, is ever adopted. */
  lemma InstalledBytesAreTheCallers(c: Codec, s0: State, events: seq<Event>, j: nat)
    requires Init(s0) && c.RoundTrips() && c.CollisionFree()
    requires var s := Run(c, s0, events); j < |s.installers| && s.installers[j].pc == Returned
    ensures var s := Run(c, s0, events); var job := s.installers[j].job; var path := Path(Snapshot, job.stem);
            path in s.files && s.files[path].data == job.source
  {
    Reachable(c, s0, events);
    assert Local(c, Run(c, s0, events).files, Run(c, s0, events).installers[j]);
  }

  /** Two calls that both return success for one stem carry the same feed. */
  lemma OneFeedPerStem(c: Codec, s0: State, events: seq<Event>, i: nat, j: nat)
    requires Init(s0) && c.RoundTrips() && c.CollisionFree()
    requires var s := Run(c, s0, events);
             && i < |s.installers| && s.installers[i].pc == Returned
             && j < |s.installers| && s.installers[j].pc == Returned
             && s.installers[i].job.stem == s.installers[j].job.stem
    ensures var s := Run(c, s0, events); s.installers[i].job.source == s.installers[j].job.source
  {
    InstalledBytesAreTheCallers(c, s0, events, i);
    InstalledBytesAreTheCallers(c, s0, events, j);
  }

  /** A held lock belongs to a call that is between taking and releasing it. */
  ghost predicate LocksHaveHolders(s: State) {
    && (forall stem | stem in s.fileLocks ::
          s.fileLocks[stem] < |s.installers|
          && s.installers[s.fileLocks[stem]].HoldsFileLock() && s.installers[s.fileLocks[stem]].job.stem == stem)
    && (forall key | key in s.threadLocks ::
          s.threadLocks[key] < |s.installers|
          && s.installers[s.threadLocks[key]].HoldsThreadLock()
          && s.installers[s.threadLocks[key]].job.process == key.0
          && s.installers[s.threadLocks[key]].job.stem == key.1)
  }

  /** No lock outlives its holder, no two calls are inside the file lock of one target, and no two calls
      of one process inside its thread lock. */
  lemma LocksAreExclusiveAndNeverLeak(c: Codec, s0: State, events: seq<Event>, i: nat, j: nat)
    requires Init(s0) && c.RoundTrips()
    ensures LocksHaveHolders(Run(c, s0, events))
    ensures var s := Run(c, s0, events);
            i < |s.installers| && j < |s.installers| && s.installers[i].job.stem == s.installers[j].job.stem ==>
              && (s.installers[i].HoldsFileLock() && s.installers[j].HoldsFileLock() ==> i == j)
              && (s.installers[i].job.process == s.installers[j].job.process
                  && s.installers[i].HoldsThreadLock() && s.installers[j].HoldsThreadLock() ==>
                    i == j)
  {
    Reachable(c, s0, events);
    var s := Run(c, s0, events);
    if i < |s.installers| && j < |s.installers| {
      assert Locked(s, i) && Locked(s, j);
    }
    hide Local, Run;
  }

  /** Step `k` of the run is the one that removes the file. */
  ghost predicate RemovedAt(c: Codec, s0: State, events: seq<Event>, k: nat, path: Path)
    requires k < |events|
  {
    path in Run(c, s0, events[..k]).files && path !in Run(c, s0, events[..k + 1]).files
  }

  /** Call `i` created the file at step `j`, and has held the file lock of its stem
      in every state from there up to step `k`. */
  ghost predicate MadeInTenure(c: Codec, s0: State, events: seq<Event>, i: nat, j: nat, k: nat, path: Path)
    requires k <= |events|
  {
    && j < k
    && events[j].Act? && events[j].installer == i
    && path !in Run(c, s0, events[..j]).files
    && path in Run(c, s0, events[..j + 1]).files
    && forall m | j < m <= k :: LockHolder(c, s0, events, m, path.stem, i)
  }

  ghost predicate LockHolder(c: Codec, s0: State, events: seq<Event>, m: nat, stem: string, i: nat)
    requires m <= |events|
  {
    var s := Run(c, s0, events[..m]);
    stem in s.fileLocks && s.fileLocks[stem] == i
  }

  ghost predicate OwnedAt(c: Codec, s0: State, events: seq<Event>, k: nat, i: nat, path: Path)
    requires k <= |events|
  {
    var s := Run(c, s0, events[..k]);
    i < |s.installers| && s.installers[i].job.stem == path.stem && s.installers[i].Owns(path.kind)
  }

  lemma OwnedMeansHolder(c: Codec, s0: State, events: seq<Event>, k: nat, i: nat, path: Path)
    requires Init(s0) && c.RoundTrips() && k <= |events| && OwnedAt(c, s0, events, k, i, path)
    ensures LockHolder(c, s0, events, k, path.stem, i)
    ensures path in Run(c, s0, events[..k]).files
  {
    Reachable(c, s0, events[..k]);
    var s := Run(c, s0, events[..k]);
    assert Locked(s, i) && Local(c, s.files, s.installers[i]);
  }

  /** Becoming an owner means creating the file in that very step. */
  lemma OwnershipStarts(c: Codec, s: State, e: Event, i: nat, kind: Kind)
    requires Inv(c, s) && i < |s.installers| && !s.installers[i].Owns(kind)
    requires i < |Step(c, s, e).installers| && Step(c, s, e).installers[i].Owns(kind)
    ensures e.Act? && e.installer == i && Path(kind, s.installers[i].job.stem) !in s.files
  {
    if e.Act? && e.installer == i {
      assert Local(c, s.files, s.installers[i]);
      CallClaims(c, s.ViewOf(i), i, e.choice);
    }
    hide SystemCall, Local;
  }

  lemma {:induction false} OwnersMadeTheirFiles(c: Codec, s0: State, events: seq<Event>, k: nat, i: nat, path: Path)
      returns (j: nat)
    requires Init(s0) && c.RoundTrips() && k <= |events| && OwnedAt(c, s0, events, k, i, path)
    ensures MadeInTenure(c, s0, events, i, j, k, path)
  {
    NobodyOwnsAtFirst(c, s0, events, i, path);
    hide Step, Inv, Init, LockHolder, MadeInTenure;
    OwnedMeansHolder(c, s0, events, k, i, path);
    if OwnedAt(c, s0, events, k - 1, i, path) {
      j := OwnersMadeTheirFiles(c, s0, events, k - 1, i, path);
      TenureGrows(c, s0, events, i, j, k, path);
    } else {
      j := k - 1;
      OwnershipStartsAt(c, s0, events, k, i, path);
    }
  }

  lemma NobodyOwnsAtFirst(c: Codec, s0: State, events: seq<Event>, i: nat, path: Path)
    requires Init(s0)
    ensures !OwnedAt(c, s0, events, 0, i, path)
  {
    assert Run(c, s0, events[..0]) == s0;
  }

  lemma TenureGrows(c: Codec, s0: State, events: seq<Event>, i: nat, j: nat, k: nat, path: Path)
    requires 0 < k <= |events| && MadeInTenure(c, s0, events, i, j, k - 1, path)
    requires LockHolder(c, s0, events, k, path.stem, i)
    ensures MadeInTenure(c, s0, events, i, j, k, path)
  {
    hide LockHolder, Run;
  }

  lemma OwnershipStartsAt(c: Codec, s0: State, events: seq<Event>, k: nat, i: nat, path: Path)
    requires Init(s0) && c.RoundTrips() && 0 < k <= |events|
    requires OwnedAt(c, s0, events, k, i, path) && !OwnedAt(c, s0, events, k - 1, i, path)
    ensures MadeInTenure(c, s0, events, i, k - 1, k, path)
  {
    hide Step, Inv, Init, LockHolder;
    assert events[..k][..k - 1] == events[..k - 1];
    var before := Run(c, s0, events[..k - 1]);
    OwnedMeansHolder(c, s0, events, k, i, path);
    Reachable(c, s0, events[..k - 1]);
    StepKeepsJobs(c, before, events[k - 1], i);
    OwnershipStarts(c, before, events[k - 1], i, path.kind);
  }

  lemma StepKeepsJobs(c: Codec, s: State, e: Event, i: nat)
    ensures |Step(c, s, e).installers| == |s.installers|
    ensures i < |s.installers| ==> Step(c, s, e).installers[i].job == s.installers[i].job
  {
    if e.Act? && e.installer < |s.installers| {
      CallDiscipline(c, s.ViewOf(e.installer), e.installer, e.choice);
    }
    hide SystemCall;
  }

  /** Only its owner removes a file. */
  lemma RemoverOwns(c: Codec, s: State, e: Event, path: Path)
    requires Inv(c, s) && path in s.files && path !in Step(c, s, e).files
    ensures e.Act? && e.installer < |s.installers|
    ensures s.installers[e.installer].job.stem == path.stem && s.installers[e.installer].Owns(path.kind)
  {
    if e.Act? && e.installer < |s.installers| {
      var v := s.ViewOf(e.installer);
      assert Local(c, s.files, v.me);
      CallTouches(c, v, e.installer, e.choice);
      var r := SystemCall(c, v, e.installer, e.choice);
      assert SameAt(s.files, r.files, path) || Touches(v.me, s.files, r.files, path);
    }
    hide SystemCall, Local;
  }

  /** In every run, a call removes only files that it created itself, in a lock tenure that
      has not been interrupted since.  An adopted snapshot is therefore never deleted. */
  lemma RemovesOnlyOwnCreations(c: Codec, s0: State, events: seq<Event>, k: nat, path: Path)
    requires Init(s0) && c.RoundTrips() && k < |events| && RemovedAt(c, s0, events, k, path)
    ensures events[k].Act?
    ensures exists j: nat :: MadeInTenure(c, s0, events, events[k].installer, j, k, path)
  {
    assert events[..k + 1][..k] == events[..k];
    Reachable(c, s0, events[..k]);
    RemoverOwns(c, Run(c, s0, events[..k]), events[k], path);
    var j := OwnersMadeTheirFiles(c, s0, events, k, events[k].installer, path);
  }
}
