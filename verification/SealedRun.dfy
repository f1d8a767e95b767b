/** The run seal: building it, and `load_sealed_run`, which lists and reads everything twice
    while others may be writing. */
module SealedRun {
  import opened Common
  import opened Ordering

  const SEAL := "seal.json"

  datatype Entry =
    | Regular(data: Bytes, links: nat, readonly: bool)
    | Symlink
    | Folder

  /** A run directory at one instant, by relative path. */
  type Tree = map<string, Entry>

  datatype Record = Record(sha256: Digest, size: nat)

  datatype Seal = Seal(version: int, files: map<string, Record>)

  /** SHA-256 and the JSON text of the seal. */
  datatype SealCodec = SealCodec(
    hash: Bytes -> Digest,
    encode: Seal -> Bytes,
    decode: Bytes -> Option<Seal>)
  {
    ghost predicate RoundTrips() { forall s: Seal :: decode(encode(s)) == Some(s) }

    ghost predicate CollisionFree() {
      forall a: Bytes, b: Bytes :: hash(a) == hash(b) ==> a == b
    }

    function Describe(data: Bytes): Record { Record(hash(data), |data|) }
  }

  /** The bytes that opening this path reads, if it can be read. */
  function Content(tree: Tree, path: string): Option<Bytes> {
    if path in tree && tree[path].Regular? then Some(tree[path].data) else None
  }

  /** What `_file_paths` refuses. */
  predicate Linked(tree: Tree, path: string) {
    path in tree && (tree[path].Symlink? || (path != SEAL && tree[path].Regular? && tree[path].links > 1))
  }

  function Files(tree: Tree): set<string> {
    set path | path in tree && tree[path].Regular? && path != SEAL
  }

  ghost predicate Listable(tree: Tree) {
    forall path | path in tree :: !Linked(tree, path)
  }

  datatype Error = InvalidSeal | Unreadable | LinkEntry | FileSetMismatch | HashMismatch | Changed | SealExists

  /** `_file_paths`: one pass over the listing. */
  method FilePaths(tree: Tree) returns (r: Result<set<string>, Error>)
    ensures r.Ok? <==> Listable(tree)
    ensures r.Ok? <==> forall path | path in tree ::
              !tree[path].Symlink? && (tree[path].Regular? && path != "seal.json" ==> tree[path].links <= 1)
    ensures r.Ok? ==> r.value == Files(tree)
    ensures r.Ok? ==> r.value == set path | path in tree && tree[path].Regular? && path != "seal.json"
  {
    var todo: set<string>, found: set<string> := tree.Keys, {};
    while todo != {}
      invariant todo <= tree.Keys
      invariant forall path | path in tree && path !in todo :: !Linked(tree, path)
      invariant forall path :: path in found <==> path in Files(tree) && path !in todo
      decreases todo
    {
      var path :| path in todo;
      todo := todo - {path};
      if tree[path].Symlink? {
        return Err(LinkEntry);
      }
      if tree[path].Regular? && path != SEAL {
        if tree[path].links > 1 {
          return Err(LinkEntry);
        }
        found := found + {path};
      }
    }
    assert found == Files(tree);
    r := Ok(found);
  }

  // ------------------------------------------------------------------- loading

  /** What the run directory was at each instant; others change it as they like. */
  type History = nat -> Tree

  /** The instant of the k-th disk access of the load. */
  type Schedule = nat -> nat

  ghost predicate Advancing(when: Schedule) {
    forall j: nat, k: nat | j <= k :: when(j) <= when(k)
  }

  /** No path ever holds again a content that it held before something else. */
  ghost predicate NeverReturns(history: History) {
    forall path: string, a: nat, b: nat, c: nat | a <= b <= c
           && Content(history(a), path).Some? && Content(history(a), path) == Content(history(c), path) ::
      Content(history(b), path) == Content(history(a), path)
  }

  datatype Loaded = Loaded(seal: Seal, sealData: Bytes, files: map<string, Bytes>)

  /** The directory is exactly what the evidence says, and its seal vouches for it. */
  ghost predicate Holds(c: SealCodec, tree: Tree, run: Loaded) {
    && Listable(tree)
    && Content(tree, SEAL) == Some(run.sealData)
    && c.decode(run.sealData) == Some(run.seal) && run.seal.version == 1
    && Files(tree) == run.seal.files.Keys == run.files.Keys
    && forall path | path in run.files ::
         Content(tree, path) == Some(run.files[path]) && run.seal.files[path] == c.Describe(run.files[path])
  }

  /** The k-th access reads bytes that the evidence cannot tell from `data`. */
  ghost predicate Agrees(c: SealCodec, history: History, t: nat, path: string, data: Bytes) {
    Content(history(t), path).Some? && c.Describe(Content(history(t), path).value) == c.Describe(data)
  }

  /** The first reading: every listed file is there and is what the seal records. */
  ghost predicate FirstReading(c: SealCodec, history: History, when: Schedule, order: seq<string>,
                               records: map<string, Record>, files: map<string, Bytes>)
  {
    && files.Keys == records.Keys
    && forall i | 0 <= i < |order| ::
         && order[i] in files
         && Content(history(when(2 + i)), order[i]) == Some(files[order[i]])
         && records[order[i]] == c.Describe(files[order[i]])
  }

  /** The second reading finds nothing changed. */
  ghost predicate SecondReading(c: SealCodec, history: History, when: Schedule, order: seq<string>,
                                files: map<string, Bytes>)
  {
    forall i | 0 <= i < |order| ::
      order[i] in files && Agrees(c, history, when(4 + |order| + i), order[i], files[order[i]])
  }

  ghost predicate ListedAs(tree: Tree, expected: set<string>) {
    Listable(tree) && Files(tree) == expected
  }

  /** Every condition that the load tests, with the access at which it tests it:
      0 the seal, 1 a listing, 2.. the files in order, then a listing, the seal and the files again. */
  ghost predicate Accepts(c: SealCodec, history: History, when: Schedule, order: seq<string>, run: Loaded) {
    && Content(history(when(0)), SEAL) == Some(run.sealData)
    && c.decode(run.sealData) == Some(run.seal) && run.seal.version == 1
    && Lists(order, run.seal.files.Keys, Below)
    && ListedAs(history(when(1)), run.seal.files.Keys)
    && FirstReading(c, history, when, order, run.seal.files, run.files)
    && ListedAs(history(when(2 + |order|)), run.seal.files.Keys)
    && Agrees(c, history, when(3 + |order|), SEAL, run.sealData)
    && SecondReading(c, history, when, order, run.files)
  }

  lemma ReadingIsUnique(c: SealCodec, history: History, when: Schedule, order: seq<string>,
                        records: map<string, Record>, a: map<string, Bytes>, b: map<string, Bytes>)
    requires Lists(order, records.Keys, Below)
    requires FirstReading(c, history, when, order, records, a) && FirstReading(c, history, when, order, records, b)
    ensures a == b
  {
    hide Lists;
    forall path | path in a ensures a[path] == b[path] {
      var i := ListedAt(order, records.Keys, Below, path);
    }
  }

  lemma ReadingFails(c: SealCodec, history: History, when: Schedule, order: seq<string>, records: map<string, Record>,
                     i: nat)
    requires i < |order| && order[i] in records
    requires var data := Content(history(when(2 + i)), order[i]);
             data.None? || records[order[i]] != c.Describe(data.value)
    ensures forall files :: !FirstReading(c, history, when, order, records, files)
  {}

  /** The first reading has got as far as `n`. */
  ghost predicate ReadSoFar(c: SealCodec, history: History, when: Schedule, order: seq<string>,
                            records: map<string, Record>, files: map<string, Bytes>, n: nat)
    requires n <= |order|
  {
    && (forall path | path in files :: path in records)
    && forall i | 0 <= i < n ::
         && order[i] in files && order[i] in records
         && Content(history(when(2 + i)), order[i]) == Some(files[order[i]])
         && records[order[i]] == c.Describe(files[order[i]])
  }

  lemma ReadNext(c: SealCodec, history: History, when: Schedule, order: seq<string>, records: map<string, Record>,
                 files: map<string, Bytes>, n: nat, data: Bytes)
    requires n < |order| && Distinct(order) && order[n] in records
              && ReadSoFar(c, history, when, order, records, files, n)
    requires Content(history(when(2 + n)), order[n]) == Some(data) && records[order[n]] == c.Describe(data)
    ensures ReadSoFar(c, history, when, order, records, files[order[n] := data], n + 1)
  {
    hide Content;
  }

  lemma ReadAll(c: SealCodec, history: History, when: Schedule, order: seq<string>, records: map<string, Record>,
                files: map<string, Bytes>)
    requires Lists(order, records.Keys, Below) && ReadSoFar(c, history, when, order, records, files, |order|)
    ensures FirstReading(c, history, when, order, records, files)
  {
    hide Lists, Content;
    forall path | path in records ensures path in files {
      var k := ListedAt(order, records.Keys, Below, path);
    }
    assert files.Keys == records.Keys;
  }

  method ReadFiles(c: SealCodec, history: History, when: Schedule, order: seq<string>, records: map<string, Record>)
      returns (r: Result<map<string, Bytes>, Error>)
    requires Lists(order, records.Keys, Below)
    ensures r.Ok? ==> FirstReading(c, history, when, order, records, r.value)
    ensures r.Err? ==> forall files :: !FirstReading(c, history, when, order, records, files)
  {
    var files: map<string, Bytes> := map[];
    assert Distinct(order);
    assert ReadSoFar(c, history, when, order, records, files, 0);
    hide Lists, Content, FirstReading, ReadSoFar, Distinct;
    for i := 0 to |order|
      invariant ReadSoFar(c, history, when, order, records, files, i)
    {
      ListedOnly(order, records.Keys, Below, i);
      var data := Content(history(when(2 + i)), order[i]);
      if data.None? || records[order[i]] != c.Describe(data.value) {
        ReadingFails(c, history, when, order, records, i);
        return Err(if data.None? then Unreadable else HashMismatch);
      }
      ReadNext(c, history, when, order, records, files, i, data.value);
      files := files[order[i] := data.value];
    }
    ReadAll(c, history, when, order, records, files);
    return Ok(files);
  }

  method RecheckFiles(c: SealCodec, history: History, when: Schedule, order: seq<string>, files: map<string, Bytes>)
      returns (same: bool)
    requires Lists(order, files.Keys, Below)
    ensures same <==> SecondReading(c, history, when, order, files)
  {
    hide Lists;
    for i := 0 to |order|
      invariant forall k | 0 <= k < i ::
          order[k] in files && Agrees(c, history, when(4 + |order| + k), order[k], files[order[k]])
    {
      ListedOnly(order, files.Keys, Below, i);
      var data := Content(history(when(4 + |order| + i)), order[i]);
      if data.None? || c.Describe(data.value) != c.Describe(files[order[i]]) { return false; }
    }
    return true;
  }

  /** `load_sealed_run`: accepts exactly when every test passes at its own instant. */
  method LoadSealedRun(c: SealCodec, history: History, when: Schedule)
      returns (r: Result<Loaded, Error>, order: seq<string>)
    ensures r.Ok? ==> Accepts(c, history, when, order, r.value)
    ensures r.Err? ==> forall o: seq<string>, run: Loaded :: !Accepts(c, history, when, o, run)
  {
    order := [];
    var sealData := Content(history(when(0)), SEAL);
    if sealData.None? { return Err(Unreadable), order; }
    var seal := c.decode(sealData.value);
    if seal.None? || seal.value.version != 1 { return Err(InvalidSeal), order; }
    var records := seal.value.files;
    var before := FilePaths(history(when(1)));
    if before.Err? { return Err(before.error), order; }
    if before.value != records.Keys { return Err(FileSetMismatch), order; }
    order := SortedKeys(records.Keys);
    forall o, run: Loaded | Accepts(c, history, when, o, run)
      ensures o == order && run.sealData == sealData.value && run.seal == seal.value
    {
      BelowIsTotalOrder();
      ListingIsUnique(o, order, records.Keys, Below);
    }
    var files := ReadFiles(c, history, when, order, records);
    if files.Err? { return Err(files.error), order; }
    forall o, run: Loaded | Accepts(c, history, when, o, run) ensures run.files == files.value {
      ReadingIsUnique(c, history, when, order, records, run.files, files.value);
    }
    hide Lists, FirstReading, SecondReading, Listable, Files;
    var after := FilePaths(history(when(2 + |order|)));
    if after.Err? { return Err(after.error), order; }
    if after.value != records.Keys { return Err(FileSetMismatch), order; }
    var sealAgain := Content(history(when(3 + |order|)), SEAL);
    if sealAgain.None? || c.Describe(sealAgain.value) != c.Describe(sealData.value) { return Err(Changed), order; }
    var same := RecheckFiles(c, history, when, order, files.value);
    if !same { return Err(Changed), order; }
    return Ok(Loaded(seal.value, sealData.value, files.value)), order;
  }

  // --------------------------------------------------------------- main theorems

  /** The access finds these bytes. */
  predicate Finds(tree: Tree, path: string, data: Bytes) {
    path in tree && tree[path].Regular? && tree[path].data == data
  }

  /** ... or bytes of the same hash and size. */
  predicate FindsLike(c: SealCodec, tree: Tree, path: string, data: Bytes) {
    path in tree && tree[path].Regular?
    && c.hash(tree[path].data) == c.hash(data) && |tree[path].data| == |data|
  }

  /** The listing has no symbolic link, no hard link but the seal, and just these files beside it. */
  ghost predicate FindsFiles(tree: Tree, files: set<string>) {
    && (forall path | path in tree ::
          !tree[path].Symlink? && (tree[path].Regular? && path != "seal.json" ==> tree[path].links <= 1))
    && forall path :: path in files <==> path in tree && tree[path].Regular? && path != "seal.json"
  }

  lemma ListingMeans(tree: Tree, files: set<string>)
    ensures ListedAs(tree, files) <==> FindsFiles(tree, files)
  {
    if FindsFiles(tree, files) {
      assert Files(tree) == files;
      assert forall path | path in tree :: !Linked(tree, path);
    }
    if ListedAs(tree, files) {
      forall path | path in tree
        ensures !tree[path].Symlink? && (tree[path].Regular? && path != "seal.json" ==> tree[path].links <= 1)
      {
        assert !Linked(tree, path);
      }
    }
  }

  lemma ReadingsMean(c: SealCodec, tree: Tree, path: string, data: Bytes, history: History, t: nat)
    requires tree == history(t)
    ensures Content(tree, path) == Some(data) <==> Finds(tree, path, data)
    ensures Agrees(c, history, t, path, data) <==> FindsLike(c, tree, path, data)
  {}

  /** Access by access, what a load that accepts has found: the seal, a listing, each file with the hash
      and the size that the seal records, a listing again, and the seal and each file as before. */
  lemma AcceptsMeans(c: SealCodec, history: History, when: Schedule, order: seq<string>, run: Loaded)
    ensures Accepts(c, history, when, order, run) <==>
              var n := |order|;
              && Finds(history(when(0)), "seal.json", run.sealData)
              && c.decode(run.sealData) == Some(run.seal) && run.seal.version == 1
              && Lists(order, run.seal.files.Keys, Below)
              && FindsFiles(history(when(1)), run.seal.files.Keys)
              && run.files.Keys == run.seal.files.Keys
              && (forall i: nat | i < n ::
                    && order[i] in run.files && Finds(history(when(2 + i)), order[i], run.files[order[i]])
                    && run.seal.files[order[i]].sha256 == c.hash(run.files[order[i]])
                    && run.seal.files[order[i]].size == |run.files[order[i]]|)
              && FindsFiles(history(when(2 + n)), run.seal.files.Keys)
              && FindsLike(c, history(when(3 + n)), "seal.json", run.sealData)
              && forall i: nat | i < n ::
                   order[i] in run.files
                   && FindsLike(c, history(when(4 + n + i)), order[i], run.files[order[i]])
  {
    var n := |order|;
    hide Lists, Content, Agrees, Finds, FindsLike, ListedAs, FindsFiles;
    ReadingsMean(c, history(when(0)), SEAL, run.sealData, history, when(0));
    ReadingsMean(c, history(when(3 + n)), SEAL, run.sealData, history, when(3 + n));
    ListingMeans(history(when(1)), run.seal.files.Keys);
    ListingMeans(history(when(2 + n)), run.seal.files.Keys);
    forall i: nat | i < n && order[i] in run.files
      ensures Content(history(when(2 + i)), order[i]) == Some(run.files[order[i]]) <==>
                Finds(history(when(2 + i)), order[i], run.files[order[i]])
      ensures Agrees(c, history, when(4 + n + i), order[i], run.files[order[i]]) <==>
                FindsLike(c, history(when(4 + n + i)), order[i], run.files[order[i]])
    {
      ReadingsMean(c, history(when(2 + i)), order[i], run.files[order[i]], history, when(2 + i));
      ReadingsMean(c, history(when(4 + n + i)), order[i], run.files[order[i]], history, when(4 + n + i));
    }
  }

  /** There is only one answer that a load can give. */
  lemma LoadIsUnique(c: SealCodec, history: History, when: Schedule, o: seq<string>, run: Loaded, o': seq<string>,
                     run': Loaded)
    requires Accepts(c, history, when, o, run) && Accepts(c, history, when, o', run')
    ensures o == o' && run == run'
  {
    BelowIsTotalOrder();
    ListingIsUnique(o, o', run.seal.files.Keys, Below);
    ReadingIsUnique(c, history, when, o, run.seal.files, run.files, run'.files);
  }

  lemma InOrder(when: Schedule, j: nat, k: nat)
    requires Advancing(when) && j <= k
    ensures when(j) <= when(k)
  {}

  /** The double collect is an atomic snapshot.  If nothing ever returns to an earlier content,
      then at the instant of the second listing the directory held exactly the returned evidence. */
  lemma LoadIsAtomicSnapshot(c: SealCodec, history: History, when: Schedule, order: seq<string>, run: Loaded)
    requires Accepts(c, history, when, order, run)
    requires Advancing(when) && NeverReturns(history) && c.CollisionFree()
    ensures Holds(c, history(when(2 + |order|)), run)
  {
    var mid := when(2 + |order|);
    InOrder(when, 0, 2 + |order|);
    InOrder(when, 2 + |order|, 3 + |order|);
    SameThroughout(c, history, when(0), mid, when(3 + |order|), SEAL, run.sealData);
    forall path | path in run.files
      ensures Content(history(mid), path) == Some(run.files[path])
              && run.seal.files[path] == c.Describe(run.files[path])
    {
      FileHeld(c, history, when, order, run, path);
    }
    hide NeverReturns, Advancing, Lists, Content, Listable, Files, FirstReading, SecondReading, Agrees;
  }

  lemma FileHeld(c: SealCodec, history: History, when: Schedule, order: seq<string>, run: Loaded, path: string)
    requires Accepts(c, history, when, order, run) && path in run.files
    requires Advancing(when) && NeverReturns(history) && c.CollisionFree()
    ensures Content(history(when(2 + |order|)), path) == Some(run.files[path])
    ensures run.seal.files[path] == c.Describe(run.files[path])
  {
    var n := |order|;
    hide NeverReturns, Advancing, Lists, Content, Listable, Files, Agrees;
    var i := ListedAt(order, run.seal.files.Keys, Below, path);
    InOrder(when, 2 + i, 2 + n);
    InOrder(when, 2 + n, 4 + n + i);
    SameThroughout(c, history, when(2 + i), when(2 + n), when(4 + n + i), path, run.files[path]);
  }

  lemma SameThroughout(c: SealCodec, history: History, a: nat, mid: nat, b: nat, path: string, data: Bytes)
    requires a <= mid <= b && NeverReturns(history) && c.CollisionFree()
    requires Content(history(a), path) == Some(data) && Agrees(c, history, b, path, data)
    ensures Content(history(mid), path) == Some(data)
  {
    assert c.hash(Content(history(b), path).value) == c.hash(data);
    assert Content(history(a), path) == Content(history(b), path);
  }

  /** The path had this content before the instant and after it, and not at it. */
  ghost predicate AwayAt(history: History, when: Schedule, first: nat, mid: nat, second: nat, path: string) {
    && when(first) <= when(mid) <= when(second)
    && Content(history(when(first)), path) == Content(history(when(second)), path)
    && Content(history(when(mid)), path) != Content(history(when(first)), path)
  }

  /** At the second listing a file, or the seal, was away from the content that both readings saw. */
  ghost predicate SomethingAway(history: History, when: Schedule, order: seq<string>) {
    || AwayAt(history, when, 0, 2 + |order|, 3 + |order|, SEAL)
    || exists i: nat | i < |order| :: AwayAt(history, when, 2 + i, 2 + |order|, 4 + |order| + i, order[i])
  }

  /** Exactly what makes a load go wrong: what an accepting load returns was the state of the directory
      at the second listing if and only if nothing was away then that both readings saw. */
  lemma LoadIsAtomicIff(c: SealCodec, history: History, when: Schedule, order: seq<string>, run: Loaded)
    requires Accepts(c, history, when, order, run) && Advancing(when) && c.CollisionFree()
    ensures Holds(c, history(when(2 + |order|)), run) <==> !SomethingAway(history, when, order)
  {
    hide Lists, Listable, Files, Content, FirstReading, SecondReading, Agrees, AwayAt, Advancing;
    SealAway(c, history, when, order, run);
    forall i: nat | i < |order|
      ensures order[i] in run.files && order[i] in run.seal.files
      ensures run.seal.files[order[i]] == c.Describe(run.files[order[i]])
      ensures AwayAt(history, when, 2 + i, 2 + |order|, 4 + |order| + i, order[i]) <==>
                Content(history(when(2 + |order|)), order[i]) != Some(run.files[order[i]])
    {
      FileAway(c, history, when, order, run, i);
    }
    forall path | path in run.seal.files ensures exists i: nat :: i < |order| && order[i] == path {
      var i := ListedAt(order, run.seal.files.Keys, Below, path);
    }
    SameKeys(c, history, when, order, run);
  }

  lemma SameKeys(c: SealCodec, history: History, when: Schedule, order: seq<string>, run: Loaded)
    requires Accepts(c, history, when, order, run)
    ensures var tree := history(when(2 + |order|));
            Listable(tree) && Files(tree) == run.seal.files.Keys == run.files.Keys
  {
    hide Lists, Listable, Files, Content, SecondReading, Agrees;
  }

  lemma SealAway(c: SealCodec, history: History, when: Schedule, order: seq<string>, run: Loaded)
    requires Accepts(c, history, when, order, run) && Advancing(when) && c.CollisionFree()
    ensures AwayAt(history, when, 0, 2 + |order|, 3 + |order|, SEAL) <==>
              Content(history(when(2 + |order|)), SEAL) != Some(run.sealData)
  {
    hide Lists, Listable, Files, Content, FirstReading, SecondReading, Agrees;
    InOrder(when, 0, 2 + |order|);
    InOrder(when, 2 + |order|, 3 + |order|);
    SameBytes(c, history, when(3 + |order|), SEAL, run.sealData);
  }

  lemma FileAway(c: SealCodec, history: History, when: Schedule, order: seq<string>, run: Loaded, i: nat)
    requires Accepts(c, history, when, order, run) && Advancing(when) && c.CollisionFree() && i < |order|
    ensures order[i] in run.files && order[i] in run.seal.files
    ensures run.seal.files[order[i]] == c.Describe(run.files[order[i]])
    ensures AwayAt(history, when, 2 + i, 2 + |order|, 4 + |order| + i, order[i]) <==>
              Content(history(when(2 + |order|)), order[i]) != Some(run.files[order[i]])
  {
    hide Lists, Listable, Files, Content, Agrees;
    InOrder(when, 2 + i, 2 + |order|);
    InOrder(when, 2 + |order|, 4 + |order| + i);
    SameBytes(c, history, when(4 + |order| + i), order[i], run.files[order[i]]);
  }

  lemma SameBytes(c: SealCodec, history: History, t: nat, path: string, data: Bytes)
    requires Agrees(c, history, t, path, data) && c.CollisionFree()
    ensures Content(history(t), path) == Some(data)
  {
    assert c.hash(Content(history(t), path).value) == c.hash(data);
  }

  function Immediate(access: nat): nat { access }

  /** The k-th file of `n` is being read. */
  predicate Reads(t: nat, n: nat, k: nat) { t == 2 + k || t == 4 + n + k }

  /** The tree with other bytes in two of its files, except in each when it is read. */
  function Flickering(tree: Tree, order: seq<string>, p: nat, q: nat, x: Bytes, y: Bytes, t: nat): Tree
    requires p < |order| && q < |order|
  {
    map path | path in tree ::
      if path == order[p] && tree[path].Regular? && !Reads(t, |order|, p) then tree[path].(data := x)
      else if path == order[q] && tree[path].Regular? && !Reads(t, |order|, q) then tree[path].(data := y)
      else tree[path]
  }

  lemma FlickeringLists(tree: Tree, order: seq<string>, p: nat, q: nat, x: Bytes, y: Bytes, t: nat)
    requires p < |order| && q < |order|
    ensures var now := Flickering(tree, order, p, q, x, y, t);
            && Files(now) == Files(tree) && (Listable(now) <==> Listable(tree))
            && forall path | path !in {order[p], order[q]} :: Content(now, path) == Content(tree, path)
  {
    var now := Flickering(tree, order, p, q, x, y, t);
    assert forall path | path in tree :: Linked(now, path) == Linked(tree, path);
  }

  lemma FlickeringNeverHolds(c: SealCodec, tree: Tree, order: seq<string>, run: Loaded, p: nat, q: nat, x: Bytes,
                             y: Bytes, t: nat, other: Loaded)
    requires Holds(c, tree, run) && c.CollisionFree() && p < |order| && q < |order| && order[p] != order[q]
    requires order[p] in run.files && order[q] in run.files
    requires x != run.files[order[p]] && y != run.files[order[q]]
    ensures !Holds(c, Flickering(tree, order, p, q, x, y, t), other)
  {
    var now := Flickering(tree, order, p, q, x, y, t);
    var k, bad := if Reads(t, |order|, p) then q else p, if Reads(t, |order|, p) then y else x;
    assert p != q;
    assert order[k] in Files(tree) && Content(now, order[k]) == Some(bad);
    assert Content(now, SEAL) == Content(tree, SEAL);
    assert Holds(c, now, other) ==> other.seal == run.seal;
    assert c.hash(bad) != c.hash(run.files[order[k]]);
  }

  /** The assumption is needed, for every sealed directory with two files, and whatever bytes stand in
      for theirs: if each is right only when it is read, every test passes although at no instant is
      the directory what its seal says. */
  lemma AlternatingFilesFoolTheLoad(c: SealCodec, tree: Tree, order: seq<string>, run: Loaded, p: nat, q: nat,
                                    x: Bytes, y: Bytes)
      returns (history: History)
    requires Holds(c, tree, run) && Lists(order, run.seal.files.Keys, Below) && c.CollisionFree()
    requires p < |order| && q < |order| && p != q
    requires x != run.files[order[p]] && y != run.files[order[q]]
    ensures Accepts(c, history, Immediate, order, run)
    ensures forall t: nat, path | path !in {order[p], order[q]} :: Content(history(t), path) == Content(tree, path)
    ensures forall t: nat, other: Loaded :: !Holds(c, history(t), other)
  {
    hide Lists, Files, Listable, Flickering, FirstReading, SecondReading, Content, Accepts, Holds;
    OrderMeans(tree, c, order, run, p, q);
    history := (t: nat) => Flickering(tree, order, p, q, x, y, t);
    FlickeringAccepted(c, tree, order, run, p, q, x, y, history);
    forall t: nat ensures
        forall path | path !in {order[p], order[q]} :: Content(history(t), path) == Content(tree, path)
    {
      FlickeringLists(tree, order, p, q, x, y, t);
    }
    forall t: nat, other: Loaded ensures !Holds(c, history(t), other) {
      FlickeringNeverHolds(c, tree, order, run, p, q, x, y, t, other);
    }
  }

  lemma FlickeringAccepted(c: SealCodec, tree: Tree, order: seq<string>, run: Loaded, p: nat, q: nat, x: Bytes,
                           y: Bytes, history: History)
    requires Holds(c, tree, run) && Lists(order, run.seal.files.Keys, Below) && p < |order| && q < |order| && p != q
    requires forall t: nat :: history(t) == Flickering(tree, order, p, q, x, y, t)
    ensures Accepts(c, history, Immediate, order, run)
  {
    var n := |order|;
    hide Lists, Files, Listable, Flickering, FirstReading, SecondReading, Content, Holds, Agrees;
    HoldsMeans(c, tree, run);
    OrderMeans(tree, c, order, run, p, q);
    FlickeringReads(c, tree, order, run, p, q, x, y, history);
    FlickeringLists(tree, order, p, q, x, y, 0);
    FlickeringLists(tree, order, p, q, x, y, 1);
    FlickeringLists(tree, order, p, q, x, y, 2 + n);
    FlickeringLists(tree, order, p, q, x, y, 3 + n);
    SealAgrees(c, history, 3 + n, run.sealData);
  }

  lemma HoldsMeans(c: SealCodec, tree: Tree, run: Loaded)
    requires Holds(c, tree, run)
    ensures Listable(tree) && Files(tree) == run.seal.files.Keys == run.files.Keys
    ensures Content(tree, SEAL) == Some(run.sealData)
    ensures c.decode(run.sealData) == Some(run.seal) && run.seal.version == 1
  {
    hide Listable, Files, Content;
  }

  lemma OrderMeans(tree: Tree, c: SealCodec, order: seq<string>, run: Loaded, p: nat, q: nat)
    requires Holds(c, tree, run) && Lists(order, run.seal.files.Keys, Below)
    requires p < |order| && q < |order| && p != q
    ensures order[p] in run.files && order[q] in run.files && order[p] != order[q]
    ensures SEAL !in {order[p], order[q]}
  {
    assert order[p] in order && order[q] in order;
  }

  lemma SealAgrees(c: SealCodec, history: History, t: nat, data: Bytes)
    requires Content(history(t), SEAL) == Some(data)
    ensures Agrees(c, history, t, SEAL, data)
  {}

  lemma FlickeringReads(c: SealCodec, tree: Tree, order: seq<string>, run: Loaded, p: nat, q: nat, x: Bytes, y: Bytes,
                        history: History)
    requires Holds(c, tree, run) && Lists(order, run.seal.files.Keys, Below) && p < |order| && q < |order|
    requires forall t: nat :: history(t) == Flickering(tree, order, p, q, x, y, t)
    ensures FirstReading(c, history, Immediate, order, run.seal.files, run.files)
    ensures SecondReading(c, history, Immediate, order, run.files)
  {
    hide Lists, Files, Listable, Content, Flickering, Holds;
    forall i | 0 <= i < |order|
      ensures order[i] in run.files && order[i] in run.seal.files
      ensures run.seal.files[order[i]] == c.Describe(run.files[order[i]])
      ensures Content(history(2 + i), order[i]) == Some(run.files[order[i]])
      ensures Content(history(4 + |order| + i), order[i]) == Some(run.files[order[i]])
    {
      ReadWhenRight(c, tree, order, run, p, q, x, y, i, 2 + i);
      ReadWhenRight(c, tree, order, run, p, q, x, y, i, 4 + |order| + i);
    }
    HoldsMeans(c, tree, run);
  }

  lemma ReadWhenRight(c: SealCodec, tree: Tree, order: seq<string>, run: Loaded, p: nat, q: nat, x: Bytes, y: Bytes,
                      i: nat, t: nat)
    requires Holds(c, tree, run) && Lists(order, run.seal.files.Keys, Below) && p < |order| && q < |order|
    requires i < |order| && Reads(t, |order|, i)
    ensures order[i] in run.files && order[i] in run.seal.files
    ensures run.seal.files[order[i]] == c.Describe(run.files[order[i]])
    ensures Content(Flickering(tree, order, p, q, x, y, t), order[i]) == Some(run.files[order[i]])
  {
    ListedOnly(order, run.seal.files.Keys, Below, i);
    assert Distinct(order);
    hide Lists, Files, Listable;
  }

  /** On a directory that nobody touches, the load accepts exactly the sealed ones, and returns
      exactly what they hold. */
  lemma QuietLoad(c: SealCodec, tree: Tree, history: History, when: Schedule, order: seq<string>, run: Loaded)
    requires Lists(order, run.seal.files.Keys, Below) && forall t: nat :: history(t) == tree
    ensures Accepts(c, history, when, order, run) <==> Holds(c, tree, run)
  {
    if Accepts(c, history, when, order, run) {
      forall path | path in run.files
        ensures Content(tree, path) == Some(run.files[path]) && run.seal.files[path] == c.Describe(run.files[path])
      {
        assert path in order;
        var i :| 0 <= i < |order| && order[i] == path;
      }
    }
    if Holds(c, tree, run) {
      forall i | 0 <= i < |order| ensures order[i] in run.files {
        assert order[i] in order;
      }
    }
  }

  /** Behind one seal there is one set of files: any lost, added or altered file breaks the seal. */
  lemma SealIsTamperEvident(c: SealCodec, one: Tree, two: Tree, a: Loaded, b: Loaded)
    requires Holds(c, one, a) && Holds(c, two, b) && c.CollisionFree()
    requires Content(one, SEAL) == Content(two, SEAL)
    ensures a == b
    ensures Files(one) == Files(two)
    ensures forall path | path in Files(one) :: Content(one, path) == Content(two, path)
  {
    forall path | path in a.files ensures a.files[path] == b.files[path] {
      assert c.hash(a.files[path]) == c.hash(b.files[path]);
    }
  }

  // -------------------------------------------------------------------- building

  function Contents(tree: Tree): map<string, Bytes> {
    map path | path in Files(tree) :: tree[path].data
  }

  class RunDirectory {
    var tree: Tree

    constructor (tree: Tree)
      ensures this.tree == tree
    {
      this.tree := tree;
    }

    /** `build_run_seal`: records every file, writes the seal, marks all read-only.  The
        result is sealed, and no other file's content has changed. */
    method BuildRunSeal(c: SealCodec) returns (r: Result<Seal, Error>)
      requires c.RoundTrips()
      modifies this
      ensures r.Ok? <==> SEAL !in old(tree) && Listable(old(tree))
      ensures r.Err? ==> tree == old(tree)
      ensures r.Ok? ==> Holds(c, tree, Loaded(r.value, c.encode(r.value), Contents(old(tree))))
      ensures r.Ok? ==> tree.Keys == old(tree).Keys + {SEAL}
      ensures r.Ok? ==> r.value.version == 1 && forall path ::
                (path in r.value.files <==> path in old(tree) && old(tree)[path].Regular?)
                && (path in r.value.files ==>
                      && r.value.files[path].sha256 == c.hash(old(tree)[path].data)
                      && r.value.files[path].size == |old(tree)[path].data|
                      && tree[path] == old(tree)[path].(readonly := true))
      ensures r.Ok? ==> forall path | path in tree && tree[path].Regular? :: tree[path].readonly
    {
      if SEAL in tree { return Err(SealExists); }
      var files := FilePaths(tree);
      if files.Err? { return Err(files.error); }
      var records: map<string, Record> := map[];
      var order := SortedKeys(files.value);
      for i := 0 to |order|
        invariant tree == old(tree)
        invariant records.Keys == set k | 0 <= k < i :: order[k]
        invariant forall path | path in records ::
            path in Files(tree) && records[path] == c.Describe(tree[path].data)
      {
        assert order[i] in order;
        records := records[order[i] := c.Describe(tree[order[i]].data)];
      }
      assert records.Keys == files.value;
      var seal := Seal(1, records);
      tree := tree[SEAL := Regular(c.encode(seal), 1, false)];
      assert Files(tree) == files.value;
      var listed := FilePaths(tree);
      assert listed.Ok?;
      MarkReadonly(listed.value + {SEAL});
      return Ok(seal);
    }

    method MarkReadonly(paths: set<string>)
      requires forall path | path in paths :: path in tree && tree[path].Regular?
      modifies this
      ensures tree.Keys == old(tree).Keys
      ensures forall path | path in tree ::
          tree[path] == if path in paths then old(tree)[path].(readonly := true) else old(tree)[path]
    {
      var todo := paths;
      while todo != {}
        invariant todo <= paths && tree.Keys == old(tree).Keys
        invariant forall path | path in tree ::
            tree[path] == if path in paths - todo then old(tree)[path].(readonly := true) else old(tree)[path]
        decreases todo
      {
        var path :| path in todo;
        tree := tree[path := tree[path].(readonly := true)];
        todo := todo - {path};
      }
    }
  }
}
