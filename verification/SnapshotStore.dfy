/** One `install_snapshot` call while it holds the lock of its target: what it does to
    the files when any chosen set of call sites raises. */
module SnapshotStore {
  import opened Common
  import opened SnapshotProtocol

  /** The calls that can raise, in program order. */
  datatype Site =
    | TakeLock
    | CreateNew(kind: Kind)
    | WriteChunk(kind: Kind, offset: nat)
    | FlushBuffers(kind: Kind)
    | ReadBackSite(kind: Kind)
    | SetReadonly(kind: Kind)
    | OpenExisting(kind: Kind)
    | ReadExistingBytes(kind: Kind)
    | ProtectExisting(kind: Kind)
    | MakeResult
    | Remove(kind: Kind)
    | ReleaseLock

  datatype Error =
    | Raise(site: Site)
    | NotFound
    | SourceHashMismatch
    | SnapshotHashMismatch
    | InvalidMetadata
    | MetadataMismatch
    | MetadataConflict

  datatype InstallResult = InstallResult(created: bool, sidecarCreated: bool, metadata: Metadata)

  /** The calls on the handle of a file that is already there. */
  predicate Reading(site: Site, kind: Kind) {
    (site.OpenExisting? || site.ReadExistingBytes? || site.ProtectExisting?) && site.kind == kind
  }

  /** The calls on the open handle of a new file. */
  predicate Filling(site: Site, kind: Kind) {
    (site.WriteChunk? || site.FlushBuffers? || site.ReadBackSite? || site.SetReadonly?) && site.kind == kind
  }

  const CHUNK: nat := 1024 * 1024

  lemma ChunkStart(offset: nat, o: nat)
    requires offset % CHUNK == 0 && o % CHUNK == 0 && offset <= o < offset + CHUNK
    ensures o == offset
  {}

  lemma NextChunk(offset: nat)
    ensures offset % CHUNK == 0 ==> (offset + CHUNK) % CHUNK == 0
  {}

  /** The same files with the same bytes; only read-only marks may differ. */
  predicate SameContents(was: map<Path, File>, now: map<Path, File>) {
    was.Keys == now.Keys && forall p | p in was :: now[p].data == was[p].data
  }

  /** Whatever was there is still there, with its bytes. */
  predicate Keeps(was: map<Path, File>, now: map<Path, File>) {
    forall p | p in was :: p in now && now[p].data == was[p].data
  }

  predicate SameElsewhere(was: map<Path, File>, now: map<Path, File>, path: Path) {
    && (forall p | p in was && p != path :: p in now && now[p] == was[p])
    && (forall p | p in now && p != path :: p in was)
  }

  class SnapshotRoot {
    const codec: Codec
    /** Which call sites raise during this call. */
    const raises: Site -> bool
    /** How many bytes a failing write gets through all the same. */
    const through: nat
    var files: map<Path, File>

    constructor (codec: Codec, raises: Site -> bool, through: nat, files: map<Path, File>)
      ensures this.codec == codec && this.raises == raises && this.through == through && this.files == files
    {
      this.codec := codec;
      this.raises := raises;
      this.through := through;
      this.files := files;
    }

    // ------------------------------------------------- which calls are made, and raise

    /** A call on the handle of a new file with this many bytes raises. */
    ghost predicate FillRaises(kind: Kind, size: nat) {
      || (exists offset: nat | offset < size && offset % CHUNK == 0 :: raises(WriteChunk(kind, offset)))
      || raises(FlushBuffers(kind)) || raises(ReadBackSite(kind)) || raises(SetReadonly(kind))
    }

    predicate ReadRaises(kind: Kind) {
      raises(OpenExisting(kind)) || raises(ReadExistingBytes(kind)) || raises(ProtectExisting(kind))
    }

    ghost predicate CreateRaises(was: map<Path, File>, path: Path, data: Bytes) {
      raises(CreateNew(path.kind)) || (path !in was && FillRaises(path.kind, |data|))
    }

    /** A file is begun, cannot be finished, and cannot be removed. */
    ghost predicate LeavesPart(was: map<Path, File>, path: Path, data: Bytes) {
      !raises(CreateNew(path.kind)) && path !in was && FillRaises(path.kind, |data|) && raises(Remove(path.kind))
    }

    /** The metadata can be created, or read and accepted. */
    ghost predicate StoresMetadata(was: map<Path, File>, job: Job) {
      var path := Path(Sidecar, job.stem);
      && !CreateRaises(was, path, codec.encode(job.Record()))
      && (path in was ==> !ReadRaises(Sidecar)) && AdmissibleSidecar(was, job)
    }

    /** From the target's bytes on, nothing stands against building the result. */
    ghost predicate Settles(was: map<Path, File>, job: Job, created: bool)
      requires Path(Snapshot, job.stem) in was
    {
      && codec.hash(was[Path(Snapshot, job.stem)].data) == job.contentHash
      && (created || !ReadRaises(Snapshot)) && StoresMetadata(was, job)
    }

    /** The body of the lock gets as far as building the result. */
    ghost predicate Reaches(was: map<Path, File>, job: Job) {
      var target := Path(Snapshot, job.stem);
      && !CreateRaises(was, target, job.source)
      && (target in was ==> !ReadRaises(Snapshot) && codec.hash(was[target].data) == job.contentHash)
      && StoresMetadata(was, job)
    }

    /** ... and so does the whole call. */
    ghost predicate Passes(was: map<Path, File>, job: Job) {
      codec.hash(job.source) == job.contentHash && !raises(TakeLock) && Reaches(was, job)
    }

    /** An error of the body of the lock: if it is an exception of a call, then that call raises. */
    predicate OfBody(error: Error) {
      if error.Raise? then raises(error.site) && !error.site.TakeLock? && !error.site.ReleaseLock?
      else error != SourceHashMismatch
    }

    predicate NoRemovalRaises() { !raises(Remove(Snapshot)) && !raises(Remove(Sidecar)) }

    // ------------------------------------------------------------------------ the calls

    /** `_remove_readonly`. */
    method RemoveReadonly(path: Path) returns (error: Option<Error>)
      modifies this
      ensures files == if raises(Remove(path.kind)) then old(files) else old(files) - {path}
      ensures error == if path in old(files) && raises(Remove(path.kind)) then Some(Raise(Remove(path.kind))) else None
    {
      if path !in files { return None; }
      if raises(Remove(path.kind)) { return Some(Raise(Remove(path.kind))); }
      files := files - {path};
      return None;
    }

    /** The open handle: write in chunks, flush, read back, mark read-only. */
    method Fill(path: Path, data: Bytes) returns (error: Option<Error>)
      requires path in files && files[path] == File([], false)
      modifies this
      ensures path in files && files == old(files)[path := files[path]] && files[path].data <= data
      ensures error.None? ==> files[path] == File(data, true)
      ensures error.Some? ==> error.value.Raise? && raises(error.value.site) && Filling(error.value.site, path.kind)
      ensures error.Some? ==> !files[path].readonly
      ensures error.None? <==> !FillRaises(path.kind, |data|)
    {
      var offset := 0;
      while offset < |data|
        invariant offset <= |data| && (offset % CHUNK == 0 || offset == |data|)
        invariant path in files && files == old(files)[path := files[path]]
        invariant files[path] == File(data[..offset], false)
        invariant forall o: nat | o < offset && o % CHUNK == 0 :: !raises(WriteChunk(path.kind, o))
      {
        var end := if offset + CHUNK <= |data| then offset + CHUNK else |data|;
        if raises(WriteChunk(path.kind, offset)) {
          var short := if offset + through <= end then offset + through else end;
          files := files[path := File(data[..short], false)];
          return Some(Raise(WriteChunk(path.kind, offset)));
        }
        forall o: nat | o < end && o % CHUNK == 0 ensures !raises(WriteChunk(path.kind, o)) {
          if o >= offset { ChunkStart(offset, o); }
        }
        NextChunk(offset);
        files := files[path := File(files[path].data + data[offset..end], false)];
        assert data[..offset] + data[offset..end] == data[..end];
        offset := end;
      }
      assert data[..offset] == data;
      if raises(FlushBuffers(path.kind)) { return Some(Raise(FlushBuffers(path.kind))); }
      if raises(ReadBackSite(path.kind)) || files[path].data != data {
        return Some(Raise(ReadBackSite(path.kind)));
      }
      if raises(SetReadonly(path.kind)) { return Some(Raise(SetReadonly(path.kind))); }
      files := files[path := File(data, true)];
      return None;
    }

    /** `_publish_exclusive_readonly`: all of the file or nothing of it, unless the removal of a part
        raises as well. */
    method PublishExclusive(path: Path, data: Bytes) returns (r: Result<bool, Error>)
      modifies this
      ensures r.Ok? <==> !CreateRaises(old(files), path, data)
      ensures r == Ok(true) ==> path !in old(files) && files == old(files)[path := File(data, true)]
      ensures r == Ok(false) ==> path in old(files) && files == old(files)
      ensures r.Err? ==> r.error.Raise? && raises(r.error.site)
                         && (r.error.site in {CreateNew(path.kind), Remove(path.kind)}
                             || Filling(r.error.site, path.kind))
      ensures r.Err? ==> SameElsewhere(old(files), files, path)
      ensures r.Err? ==> if LeavesPart(old(files), path, data) then path in files && path !in old(files)
                         else files == old(files)
      ensures r == Err(Raise(Remove(path.kind))) <==> LeavesPart(old(files), path, data)
    {
      if raises(CreateNew(path.kind)) {
        return Err(Raise(CreateNew(path.kind)));
      }
      if path in files {
        return Ok(false);
      }
      files := files[path := File([], false)];
      var error := Fill(path, data);
      hide FillRaises;
      if error.Some? {
        var removal := RemoveReadonly(path);
        return Err(if removal.Some? then removal.value else error.value);
      }
      return Ok(true);
    }

    /** `_read_existing_exclusive_readonly`. */
    method ReadExisting(path: Path) returns (r: Result<Bytes, Error>)
      modifies this
      ensures r.Ok? ==> path in old(files) && r.value == old(files)[path].data
                        && files == old(files)[path := File(old(files)[path].data, true)]
      ensures r.Err? ==> files == old(files)
      ensures r.Err? ==> if r.error.Raise? then raises(r.error.site) && Reading(r.error.site, path.kind)
                         else r.error == NotFound && path !in old(files)
      ensures r.Ok? <==> path in old(files) && !ReadRaises(path.kind)
    {
      if raises(OpenExisting(path.kind)) { return Err(Raise(OpenExisting(path.kind))); }
      if path !in files { return Err(NotFound); }
      if raises(ReadExistingBytes(path.kind)) { return Err(Raise(ReadExistingBytes(path.kind))); }
      var data := files[path].data;
      if raises(ProtectExisting(path.kind)) { return Err(Raise(ProtectExisting(path.kind))); }
      files := files[path := files[path].(readonly := true)];
      return Ok(data);
    }

    /** `_install_metadata`: create the metadata file, or accept one that fits. */
    method InstallMetadata(job: Job) returns (r: Result<(bool, Metadata), Error>)
      modifies this
      ensures r.Ok? <==> StoresMetadata(old(files), job)
      ensures var path := Path(Sidecar, job.stem);
              && SameElsewhere(old(files), files, path)
              && (r.Ok? ==> r.value.0 == (path !in old(files)) && path in files && files[path].readonly)
              && (r.Ok? && r.value.0 ==> r.value.1 == job.Record() && files[path].data == codec.encode(job.Record()))
              && (r.Ok? && !r.value.0 ==>
                    && files[path].data == old(files)[path].data
                    && codec.decode(files[path].data) == Some(r.value.1)
                    && job.Compatible(r.value.1))
              && (r.Err? ==> if LeavesPart(old(files), path, codec.encode(job.Record()))
                             then path in files && path !in old(files)
                             else SameContents(old(files), files))
              && (r.Err? ==>
                    if r.error.Raise? then
                      && raises(r.error.site)
                      && (r.error.site in {CreateNew(Sidecar), Remove(Sidecar)} || Filling(r.error.site, Sidecar))
                    else r.error == InvalidMetadata || r.error == MetadataMismatch || r.error == MetadataConflict)
      ensures r.Ok? ==> RightMetadata(job, r.value.0, r.value.1)
      ensures r.Err? ==> Blames(old(files), job, r.error)
      ensures var path := Path(Sidecar, job.stem);
              !raises(CreateNew(Sidecar)) && path in old(files) ==>
                var existing := codec.decode(old(files)[path].data);
                && (r == Err(InvalidMetadata) <==> ReadRaises(Sidecar) || existing.None?)
                && (!ReadRaises(Sidecar) && existing.Some? ==>
                      var m := existing.value;
                      var same := && "local_file" in m && m["local_file"] == job.stem + ".yml"
                                  && "sha256" in m && m["sha256"] == job.contentHash;
                      && (r == Err(MetadataMismatch) <==> !same)
                      && (r == Err(MetadataConflict) <==>
                            same && exists k | k in job.required :: k !in m || m[k] != job.required[k]))
    {
      var path := Path(Sidecar, job.stem);
      var created := PublishExclusive(path, codec.encode(job.Record()));
      hide FillRaises;
      if created.Err? {
        return Err(created.error);
      }
      if created.value {
        return Ok((true, job.Record()));
      }
      var data := ReadExisting(path);
      if data.Err? {
        return Err(InvalidMetadata);
      }
      var existing := codec.decode(data.value);
      if existing.None? {
        return Err(InvalidMetadata);
      }
      if !job.Identifies(existing.value) {
        return Err(MetadataMismatch);
      }
      if exists k | k in job.required :: k !in existing.value || existing.value[k] != job.required[k] {
        return Err(MetadataConflict);
      }
      return Ok((false, existing.value));
    }

    /** The `except BaseException` block: only what this call created goes.  A removal that raises
        ends it. */
    method RollBack(job: Job, created: bool, sidecarCreated: bool) returns (error: Option<Error>)
      requires created ==> Path(Snapshot, job.stem) in files
      requires sidecarCreated ==> Path(Sidecar, job.stem) in files
      modifies this
      ensures var target, sidecar := Path(Snapshot, job.stem), Path(Sidecar, job.stem);
              var left := if sidecarCreated then old(files) - {sidecar} else old(files);
              if !created then files == old(files) && error.None?
              else if sidecarCreated && raises(Remove(Sidecar)) then
                files == old(files) && error == Some(Raise(Remove(Sidecar)))
              else if raises(Remove(Snapshot)) then files == left && error == Some(Raise(Remove(Snapshot)))
              else files == left - {target} && error.None?
    {
      if created {
        if sidecarCreated {
          error := RemoveReadonly(Path(Sidecar, job.stem));
          if error.Some? { return; }
        }
        error := RemoveReadonly(Path(Snapshot, job.stem));
        return;
      }
      return None;
    }

    /** The start of the `try` block: the bytes under the target have the promised hash. */
    method VerifyTarget(job: Job, created: bool) returns (error: Option<Error>)
      requires var target := Path(Snapshot, job.stem); target in files && (created ==> files[target].readonly)
      modifies this
      ensures SameContents(old(files), files)
      ensures error.None? ==> GoodSnapshot(codec, files, job)
      ensures error.Some? ==> if error.value.Raise? then raises(error.value.site) && Reading(error.value.site, Snapshot)
                              else error.value == SnapshotHashMismatch
      ensures error.None? <==> (created || !ReadRaises(Snapshot))
                               && codec.hash(old(files)[Path(Snapshot, job.stem)].data) == job.contentHash
    {
      var target := Path(Snapshot, job.stem);
      var data := files[target].data;
      if !created {
        var existing := ReadExisting(target);
        if existing.Err? { return Some(existing.error); }
        data := existing.value;
      }
      if codec.hash(data) != job.contentHash { return Some(SnapshotHashMismatch); }
      return None;
    }

    /** The `try` block: verify the snapshot, settle the metadata, build the result. */
    method Settle(job: Job, created: bool) returns (r: Result<InstallResult, Error>, sidecarCreated: bool)
      requires codec.RoundTrips()
      requires var target := Path(Snapshot, job.stem); target in files && (created ==> files[target].readonly)
      modifies this
      ensures r.Ok? <==> Settles(old(files), job, created) && !raises(MakeResult)
      ensures r == Err(Raise(MakeResult)) <==> Settles(old(files), job, created) && raises(MakeResult)
      ensures r.Err? ==> OfBody(r.error)
      ensures sidecarCreated == (Settles(old(files), job, created) && Path(Sidecar, job.stem) !in old(files))
      ensures Settles(old(files), job, created) ==>
                && Installed(codec, files, job)
                && files.Keys == old(files).Keys + {Path(Sidecar, job.stem)}
                && (sidecarCreated ==> files[Path(Sidecar, job.stem)].data == codec.encode(job.Record()))
      ensures Keeps(old(files), files)
      ensures !Settles(old(files), job, created) ==>
                var sidecar := Path(Sidecar, job.stem);
                || SameContents(old(files), files)
                || (raises(Remove(Sidecar)) && files.Keys == old(files).Keys + {sidecar} && sidecar !in old(files))
      ensures r.Ok? ==> Reports(old(files), files, job, created, r.value)
      ensures r.Err? ==> Blames(old(files), job, r.error)
    {
      sidecarCreated := false;
      hide FillRaises, CreateRaises, Blames, RightMetadata;
      var error := VerifyTarget(job, created);
      if error.Some? {
        BlamesNothing(old(files), job, error.value);
        return Err(error.value), false;
      }
      ghost var read := files;
      var stored := InstallMetadata(job);
      SameSidecar(old(files), read, job);
      if stored.Err? {
        SameBlame(old(files), read, job, stored.error);
        return Err(stored.error), false;
      }
      RecordIdentifies(job);
      sidecarCreated := stored.value.0;
      if raises(MakeResult) {
        BlamesNothing(old(files), job, Raise(MakeResult));
        return Err(Raise(MakeResult)), sidecarCreated;
      }
      return Ok(InstallResult(created, sidecarCreated, stored.value.1)), sidecarCreated;
    }

    lemma BlamesNothing(was: map<Path, File>, job: Job, error: Error)
      requires error.Raise? || error == SnapshotHashMismatch
      ensures Blames(was, job, error)
    {}

    lemma SameBlame(was: map<Path, File>, now: map<Path, File>, job: Job, error: Error)
      requires SameContents(was, now)
      ensures Blames(was, job, error) <==> Blames(now, job, error)
    {}

    lemma SameSidecar(was: map<Path, File>, now: map<Path, File>, job: Job)
      requires SameContents(was, now)
      ensures StoresMetadata(was, job) <==> StoresMetadata(now, job)
    {}

    lemma TargetPublished(was: map<Path, File>, now: map<Path, File>, job: Job, created: bool)
      requires codec.hash(job.source) == job.contentHash
      requires var target := Path(Snapshot, job.stem);
               && !CreateRaises(was, target, job.source) && created == (target !in was)
               && now == if created then was[target := File(job.source, true)] else was
      ensures Reaches(was, job) <==> Settles(now, job, created)
    {
      hide FillRaises;
    }

    /** The exceptions of the handler belong to the body of the lock. */
    lemma RaisesInBody()
      ensures OfBody(Raise(Remove(Snapshot))) <==> raises(Remove(Snapshot))
      ensures OfBody(Raise(Remove(Sidecar))) <==> raises(Remove(Sidecar))
    {}

    /** Success, and what else happens to the files, for every set of raising call sites. */
    ghost predicate Settled(was: map<Path, File>, now: map<Path, File>, job: Job, reached: bool) {
      var sidecar := Path(Sidecar, job.stem);
      && Keeps(was, now)
      && (reached && !raises(MakeResult) ==> Installed(codec, now, job))
      && (reached && raises(MakeResult) && Repairing(was, job) ==> sidecar in now && SameContents(was, now - {sidecar}))
      && (NoRemovalRaises() ==>
            (SameContents(was, now) <==>
             !(reached && if raises(MakeResult) then Repairing(was, job) else !Present(was, job))))
    }

    /** The `try` block and its handler, once the target is there. */
    method SettleOrUndo(job: Job, created: bool) returns (r: Result<InstallResult, Error>)
      requires codec.RoundTrips()
      requires var target := Path(Snapshot, job.stem); target in files && (created ==> files[target].readonly)
      modifies this
      ensures var reached := Settles(old(files), job, created);
              var target, sidecar := Path(Snapshot, job.stem), Path(Sidecar, job.stem);
              && (r.Ok? <==> reached && !raises(MakeResult))
              && (r.Err? ==> OfBody(r.error) && Blames(old(files), job, r.error))
              && (NoRemovalRaises() ==> (r == Err(Raise(MakeResult)) <==> reached && raises(MakeResult)))
              && Keeps(if created then old(files) - {target} else old(files), files)
              && (r.Ok? || (reached && !created) ==>
                    && Installed(codec, files, job) && files.Keys == old(files).Keys + {sidecar}
                    && Keeps(old(files), files)
                    && (sidecar !in old(files) ==> files[sidecar].data == codec.encode(job.Record())))
              && (r.Ok? ==> Reports(old(files), files, job, created, r.value))
              && (r.Err? && NoRemovalRaises() && created ==> SameContents(old(files) - {target}, files))
              && (r.Err? && NoRemovalRaises() && !created && !reached ==> SameContents(old(files), files))
    {
      hide Settles, Installed, Job.Compatible, OfBody;
      RaisesInBody();
      var sidecarCreated;
      r, sidecarCreated := Settle(job, created);
      if r.Err? {
        var removal := RollBack(job, created, sidecarCreated);
        if removal.Some? { r := Err(removal.value); }
      }
    }

    /** What the result says of the metadata. */
    ghost predicate Reports(was: map<Path, File>, now: map<Path, File>, job: Job, created: bool, res: InstallResult) {
      var sidecar := Path(Sidecar, job.stem);
      && res.created == created && res.sidecarCreated == (sidecar !in was)
      && sidecar in now && codec.decode(now[sidecar].data) == Some(res.metadata)
      && RightMetadata(job, res.sidecarCreated, res.metadata)
      && (res.sidecarCreated ==> now[sidecar].data == codec.encode(res.metadata))
    }

    /** The body of the lock. */
    method InstallUnderLock(job: Job) returns (r: Result<InstallResult, Error>)
      requires codec.hash(job.source) == job.contentHash && codec.RoundTrips()
      modifies this
      ensures r.Ok? <==> Reaches(old(files), job) && !raises(MakeResult)
      ensures r.Ok? ==> Accepted(old(files), files, job, r.value)
      ensures r.Err? ==> OfBody(r.error) && Blames(old(files), job, r.error)
      ensures NoRemovalRaises() ==>
                (r == Err(Raise(MakeResult)) <==> Reaches(old(files), job) && raises(MakeResult))
      ensures Settled(old(files), files, job, Reaches(old(files), job))
    {
      var published := PublishExclusive(Path(Snapshot, job.stem), job.source);
      hide FillRaises;
      if published.Err? {
        return Err(published.error);
      }
      TargetPublished(old(files), files, job, published.value);
      hide Reaches, Settles, CreateRaises, Installed, Job.Compatible, OfBody;
      r := SettleOrUndo(job, published.value);
    }

    /** `install_snapshot` from the hash check of the source to the release of the lock.  An exception
        while the lock is released replaces any other. */
    method InstallSnapshot(job: Job) returns (r: Result<InstallResult, Error>)
      requires codec.RoundTrips()
      modifies this
      ensures r.Ok? <==> Passes(old(files), job) && !raises(MakeResult) && !raises(ReleaseLock)
      ensures r.Ok? ==> Accepted(old(files), files, job, r.value)
      ensures r.Err? && r.error.Raise? ==> raises(r.error.site)
      ensures r.Err? ==> Blames(old(files), job, r.error)
      ensures var sidecar := Path(Sidecar, job.stem);
              sidecar in old(files) && codec.decode(old(files)[sidecar].data).Some? ==>
                var m := codec.decode(old(files)[sidecar].data).value;
                (exists k | k in job.required :: k !in m || m[k] != job.required[k]) ==> r.Err?
      ensures r == Err(SourceHashMismatch) <==> codec.hash(job.source) != job.contentHash
      ensures r == Err(Raise(TakeLock)) <==> codec.hash(job.source) == job.contentHash && raises(TakeLock)
      ensures r == Err(Raise(ReleaseLock)) <==>
                codec.hash(job.source) == job.contentHash && !raises(TakeLock) && raises(ReleaseLock)
      ensures NoRemovalRaises() ==>
                (r == Err(Raise(MakeResult)) <==>
                 Passes(old(files), job) && raises(MakeResult) && !raises(ReleaseLock))
      ensures Settled(old(files), files, job, Passes(old(files), job))
    {
      if codec.hash(job.source) != job.contentHash {
        return Err(SourceHashMismatch);
      }
      if raises(TakeLock) {
        return Err(Raise(TakeLock));
      }
      r := InstallUnderLock(job);
      hide Reaches, Settled, Accepted;
      if raises(ReleaseLock) {
        r := Err(Raise(ReleaseLock));
      }
    }

    ghost predicate Present(was: map<Path, File>, job: Job) {
      Path(Snapshot, job.stem) in was && Path(Sidecar, job.stem) in was
    }

    /** The call adds metadata to a snapshot that was already there. */
    ghost predicate Repairing(was: map<Path, File>, job: Job) {
      Path(Snapshot, job.stem) in was && Path(Sidecar, job.stem) !in was
    }

    ghost predicate AdmissibleSidecar(was: map<Path, File>, job: Job) {
      var sidecar := Path(Sidecar, job.stem);
      sidecar in was ==> codec.decode(was[sidecar].data).Some?
                         && job.Compatible(codec.decode(was[sidecar].data).value)
    }

    /** Success: both files are there, protected and consistent; nothing that was there lost a
        byte; the report says which of the two are new, and what the metadata is. */
    ghost predicate Accepted(was: map<Path, File>, now: map<Path, File>, job: Job, res: InstallResult) {
      var target, sidecar := Path(Snapshot, job.stem), Path(Sidecar, job.stem);
      && now.Keys == was.Keys + {target, sidecar}
      && (forall p | p in was :: now[p].data == was[p].data)
      && now[target].readonly && now[sidecar].readonly
      && codec.hash(now[target].data) == job.contentHash
      && (target !in was ==> now[target].data == job.source)
      && res.created == (target !in was)
      && res.sidecarCreated == (sidecar !in was)
      && codec.decode(now[sidecar].data) == Some(res.metadata)
      && RightMetadata(job, res.sidecarCreated, res.metadata)
      && (sidecar !in was ==> now[sidecar].data == codec.encode(res.metadata))
    }

    /** New metadata is the caller's, with the name of the file and the hash; metadata that was there
        has these two, and every required entry with its value. */
    ghost predicate RightMetadata(job: Job, created: bool, m: Metadata) {
      && "local_file" in m && m["local_file"] == job.stem + ".yml"
      && "sha256" in m && m["sha256"] == job.contentHash
      && (created ==> m == job.metadata["local_file" := job.stem + ".yml"]["sha256" := job.contentHash])
      && (!created ==> forall k | k in job.required :: k in m && m[k] == job.required[k])
    }

    /** An error that blames the metadata is right about it. */
    ghost predicate Blames(was: map<Path, File>, job: Job, error: Error) {
      var sidecar := Path(Sidecar, job.stem);
      error == InvalidMetadata || error == MetadataMismatch || error == MetadataConflict ==>
        && sidecar in was
        && var existing := codec.decode(was[sidecar].data);
           && (error == InvalidMetadata ==> ReadRaises(Sidecar) || existing.None?)
           && (error != InvalidMetadata ==>
                 && existing.Some?
                 && var m := existing.value;
                    var same := && "local_file" in m && m["local_file"] == job.stem + ".yml"
                                && "sha256" in m && m["sha256"] == job.contentHash;
                    if error == MetadataMismatch then !same
                    else same && exists k | k in job.required :: k !in m || m[k] != job.required[k])
    }
  }

  /** A call in which neither the building of the result, nor the release of the lock, nor a removal
      raises is all or nothing, whatever else raises. */
  method AllOrNothing(codec: Codec, raises: Site -> bool, through: nat, was: map<Path, File>, job: Job)
      returns (r: Result<InstallResult, Error>, now: map<Path, File>)
    requires codec.RoundTrips()
    requires forall site | raises(site) :: !site.MakeResult? && !site.ReleaseLock? && !site.Remove?
    ensures r.Ok? ==> Installed(codec, now, job) && Keeps(was, now)
    ensures r.Err? ==> SameContents(was, now)
  {
    var root := new SnapshotRoot(codec, raises, through, was);
    r := root.InstallSnapshot(job);
    now := root.files;
  }

  /** The first exception to all-or-nothing, reached: a snapshot without metadata, and a raise while the
      result is built.  The metadata stays behind. */
  method MetadataStaysBehind(codec: Codec, job: Job, data: Bytes, through: nat)
      returns (r: Result<InstallResult, Error>, was: map<Path, File>, now: map<Path, File>)
    requires codec.RoundTrips() && codec.hash(job.source) == codec.hash(data) == job.contentHash
    ensures was == map[Path(Snapshot, job.stem) := File(data, true)]
    ensures r == Err(Raise(MakeResult)) && !SameContents(was, now)
    ensures Path(Sidecar, job.stem) in now
  {
    was := map[Path(Snapshot, job.stem) := File(data, true)];
    var root := new SnapshotRoot(codec, site => site == MakeResult, through, was);
    r := root.InstallSnapshot(job);
    now := root.files;
  }

  /** The second one, reached: an empty directory, and a raise while the lock is released.  The call
      fails, and everything is installed. */
  method InstallStaysBehind(codec: Codec, job: Job, through: nat)
      returns (r: Result<InstallResult, Error>, now: map<Path, File>)
    requires codec.RoundTrips() && codec.hash(job.source) == job.contentHash
    ensures r == Err(Raise(ReleaseLock)) && !SameContents(map[], now) && Installed(codec, now, job)
  {
    var root := new SnapshotRoot(codec, site => site == ReleaseLock, through, map[]);
    r := root.InstallSnapshot(job);
    now := root.files;
  }
}
