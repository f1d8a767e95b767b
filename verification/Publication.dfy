/** From the inputs of a run to the verdict on what was published: `_build_pilot` fills and seals the
    staging directory, `run_pilot` publishes it among other runs, `verify_run` loads and checks it. */
module Publication {
  import opened Common
  import opened Ordering
  import opened Runner
  import opened RunLaws
  import In = RunInputs
  import State = MissingState
  import Files = Bundle
  import Seals = SealedRun
  import Protocol = RunProtocol

  /** The artifact files by relative path; the formats themselves are left abstract. */
  datatype Format = Format(write: Built -> map<string, Bytes>, read: map<string, Bytes> -> Option<Files.Bundle>)
  {
    /** No artifact is called like the seal. */
    ghost predicate AvoidsSeal() { forall b :: Seals.SEAL !in write(b) }

    /** What is written of this run is read back. */
    predicate ReadsBack(b: Built) { read(write(b)) == Some(b.bundle) }
  }

  /** The directory that these files make. */
  function TreeOf(items: seq<Protocol.Item>): Seals.Tree {
    if items == [] then map[]
    else
      var last := items[|items| - 1];
      TreeOf(items[..|items| - 1])[last.path := Seals.Regular(last.data, 1, true)]
  }

  /** What a load of these files, sealed, returns. */
  function Evidence(c: Seals.SealCodec, files: map<string, Bytes>): Seals.Loaded {
    var seal := Seals.Seal(1, map path | path in files :: c.Describe(files[path]));
    Seals.Loaded(seal, c.encode(seal), files)
  }

  ghost predicate Packed(c: Seals.SealCodec, files: map<string, Bytes>, items: seq<Protocol.Item>) {
    Seals.Holds(c, TreeOf(items), Evidence(c, files))
  }

  // ---------------------------------------------------------- filling the staging directory

  function Artifacts(files: map<string, Bytes>): Seals.Tree {
    map path | path in files :: Seals.Regular(files[path], 1, false)
  }

  lemma ArtifactsAreListed(files: map<string, Bytes>)
    requires Seals.SEAL !in files
    ensures Seals.SEAL !in Artifacts(files) && Seals.Listable(Artifacts(files))
    ensures Seals.Contents(Artifacts(files)) == files
  {
    assert Seals.Files(Artifacts(files)) == files.Keys;
  }

  /** The seal of these files is the one that was built. */
  lemma SealIsDetermined(c: Seals.SealCodec, tree: Seals.Tree, seal: Seals.Seal, files: map<string, Bytes>)
    requires Seals.Holds(c, tree, Seals.Loaded(seal, c.encode(seal), files))
    ensures Evidence(c, files) == Seals.Loaded(seal, c.encode(seal), files)
  {
    hide Seals.Listable, Seals.Files, Seals.Content;
    assert seal.files == map path | path in files :: c.Describe(files[path]);
  }

  /** The content of a directory of regular files, as the publishing protocol writes it. */
  method ListTree(tree: Seals.Tree) returns (items: seq<Protocol.Item>)
    requires forall path | path in tree :: tree[path].Regular?
    ensures TreeOf(items).Keys == tree.Keys
    ensures forall path | path in tree :: TreeOf(items)[path] == Seals.Regular(tree[path].data, 1, true)
  {
    var order := SortedKeys(tree.Keys);
    items := [];
    for i := 0 to |order|
      invariant TreeOf(items).Keys == set k | 0 <= k < i :: order[k]
      invariant forall path | path in TreeOf(items) ::
          path in tree && TreeOf(items)[path] == Seals.Regular(tree[path].data, 1, true)
    {
      ListedOnly(order, tree.Keys, Below, i);
      items := items + [Protocol.Item(order[i], tree[order[i]].data)];
    }
    forall path | path in tree ensures path in TreeOf(items) {
      var k := ListedAt(order, tree.Keys, Below, path);
    }
  }

  lemma SameSealed(c: Seals.SealCodec, tree: Seals.Tree, items: seq<Protocol.Item>, run: Seals.Loaded)
    requires Seals.Holds(c, tree, run) && TreeOf(items).Keys == tree.Keys
    requires forall path | path in tree ::
               tree[path].Regular? && TreeOf(items)[path] == Seals.Regular(tree[path].data, 1, true)
    ensures Seals.Holds(c, TreeOf(items), run)
  {
    assert forall path :: Seals.Content(TreeOf(items), path) == Seals.Content(tree, path);
    assert Seals.Files(TreeOf(items)) == Seals.Files(tree);
  }

  /** `_build_pilot` to its end: the stages, the artifacts, the seal. */
  method BuildStaging(p: In.Parsers, codec: Files.RowCodec, c: Seals.SealCodec, format: Format, config: Config,
                      source: Digest, catalogue: Digest, snapshot: In.Snapshot, table: In.Table,
                      previous: Option<State.Json>)
      returns (r: Result<Built, Error>, items: seq<Protocol.Item>, ghost input: State.RunInput)
    requires c.RoundTrips() && format.AvoidsSeal()
    ensures r.Ok? <==>
              && In.AcceptsSnapshot(p.text, config.adapter, source, snapshot) && In.Accepts(p, table)
              && config.adapter.supplier != "" && GoodPolicy(config.policy)
              && State.Validated(previous, config.adapter.supplier).Ok?
    ensures r.Ok? ==> IsRun(p, codec, config, snapshot, table, previous, input, r.value)
    ensures r.Ok? ==> Packed(c, format.write(r.value), items)
  {
    hide In.AcceptsSnapshot, In.Accepts, State.Validated, IsRun, GoodPolicy;
    items := [];
    r, input := BuildPilot(p, codec, config, source, catalogue, snapshot, table, previous);
    if r.Err? { return; }
    items := Pack(c, format.write(r.value));
  }

  /** Writes the artifacts and `build_run_seal`. */
  method Pack(c: Seals.SealCodec, files: map<string, Bytes>) returns (items: seq<Protocol.Item>)
    requires c.RoundTrips() && Seals.SEAL !in files
    ensures Packed(c, files, items)
  {
    ArtifactsAreListed(files);
    var root := new Seals.RunDirectory(Artifacts(files));
    var sealed := root.BuildRunSeal(c);
    ghost var run := Seals.Loaded(sealed.value, c.encode(sealed.value), files);
    SealIsDetermined(c, root.tree, sealed.value, files);
    AllRegular(c, root.tree, run);
    items := ListTree(root.tree);
    SameSealed(c, root.tree, items, run);
  }

  lemma AllRegular(c: Seals.SealCodec, tree: Seals.Tree, run: Seals.Loaded)
    requires Seals.Holds(c, tree, run) && tree.Keys == run.files.Keys + {Seals.SEAL}
    ensures forall path | path in tree :: tree[path].Regular?
  {
    assert forall path | path in run.files :: path in Seals.Files(tree);
  }

  // --------------------------------------------------------------------- checking a run

  /** The load accepts, the artifacts can be read, and the row-level checks pass. */
  ghost predicate RunVerifies(codec: Files.RowCodec, c: Seals.SealCodec, format: Format, history: Seals.History,
                              when: Seals.Schedule)
  {
    exists order, run ::
      && Seals.Accepts(c, history, when, order, run)
      && format.read(run.files).Some? && Files.RowsVerify(codec, format.read(run.files).value)
  }

  /** `verify_run` on a directory that others may be changing, as far as rows go. */
  method VerifyRun(codec: Files.RowCodec, c: Seals.SealCodec, format: Format, history: Seals.History,
                   when: Seals.Schedule) returns (passed: bool)
    ensures passed <==> RunVerifies(codec, c, format, history, when)
  {
    hide Seals.Accepts, Files.RowsVerify;
    var loaded, order := Seals.LoadSealedRun(c, history, when);
    if loaded.Err? { return false; }
    forall o, run | Seals.Accepts(c, history, when, o, run) ensures run == loaded.value {
      Seals.LoadIsUnique(c, history, when, o, run, order, loaded.value);
    }
    var bundle := format.read(loaded.value.files);
    if bundle.None? { return false; }
    var verifier := new Files.Verifier();
    verifier.VerifyRows(codec, bundle.value);
    passed := forall name | name in verifier.checks :: verifier.checks[name];
  }

  /** On a directory that nobody changes and that holds these files, sealed, the verdict is that on
      the rows that they hold. */
  lemma PackedVerdict(codec: Files.RowCodec, c: Seals.SealCodec, format: Format, history: Seals.History,
                      when: Seals.Schedule, items: seq<Protocol.Item>, b: Built)
    requires Packed(c, format.write(b), items) && format.ReadsBack(b)
    requires forall t: nat :: history(t) == TreeOf(items)
    ensures RunVerifies(codec, c, format, history, when) <==> Files.RowsVerify(codec, b.bundle)
  {
    hide Seals.Accepts, Files.RowsVerify, TreeOf;
    var run := Evidence(c, format.write(b));
    var order := ListingExists(run.seal.files.Keys);
    Seals.QuietLoad(c, TreeOf(items), history, when, order, run);
    hide Seals.Holds, Lists, Evidence;
    forall o, other | Seals.Accepts(c, history, when, o, other) ensures other == run {
      Seals.LoadIsUnique(c, history, when, o, other, order, run);
    }
  }

  // ----------------------------------------------------------------------- main theorem

  /** The output directory of this name in a state of the publishing protocol. */
  function Output(s: Protocol.State, name: string): Seals.Tree {
    if name in s.entries && s.entries[name].Folder? then TreeOf(s.entries[name].items) else map[]
  }

  function UpTo(more: seq<Protocol.Event>, t: nat): seq<Protocol.Event> {
    if t <= |more| then more[..t] else more
  }

  /** ... and through a continuation of a run of the protocol. */
  function OutputHistory(s0: Protocol.State, events: seq<Protocol.Event>, more: seq<Protocol.Event>, name: string)
      : Seals.History
  {
    (t: nat) => Output(Protocol.Run(s0, events + UpTo(more, t)), name)
  }

  /** For runs of which no name looks like a staging directory of another: however the calls interleave,
      fail and die, what a call has published of the inputs of its run passes verification, at any later
      time and while the others go on, exactly if escaping leaves every supplier id alone and merges no
      two SKUs, and every item's text stays on one line. */
  lemma PublishedRunVerifies(p: In.Parsers, codec: Files.RowCodec, c: Seals.SealCodec, format: Format, config: Config,
                             source: Digest, snapshot: In.Snapshot, table: In.Table, previous: Option<State.Json>,
                             input: State.RunInput, b: Built, s0: Protocol.State, events: seq<Protocol.Event>,
                             more: seq<Protocol.Event>, i: nat, when: Seals.Schedule)
    requires In.AcceptsSnapshot(p.text, config.adapter, source, snapshot) && codec.JsonText(snapshot.items)
    requires IsRun(p, codec, config, snapshot, table, previous, input, b) && format.ReadsBack(b)
    requires Protocol.Init(s0) && Protocol.Isolated(s0.calls)
    requires var s := Protocol.Run(s0, events);
             i < |s.calls| && s.calls[i].published && Packed(c, format.write(b), s.calls[i].bundle)
    ensures var name := Protocol.Run(s0, events).calls[i].name;
            RunVerifies(codec, c, format, OutputHistory(s0, events, more, name), when) <==>
              && (forall k | 0 <= k < |snapshot.items| :: Unchanged(snapshot.items[k].item.id))
              && NoEscapedTwin(In.ItemSkus(snapshot.items))
              && OneLineEach(codec, snapshot.items)
  {
    var me := Protocol.Run(s0, events).calls[i];
    var history := OutputHistory(s0, events, more, me.name);
    hide *;
    forall t: nat ensures history(t) == TreeOf(me.bundle) { OutputStays(s0, events, more, i, t); }
    PackedVerdict(codec, c, format, history, when, me.bundle, b);
    BuiltBundlesVerify(p, codec, config, source, snapshot, table, previous, input, b);
  }

  lemma OutputStays(s0: Protocol.State, events: seq<Protocol.Event>, more: seq<Protocol.Event>, i: nat, t: nat)
    requires Protocol.Init(s0) && Protocol.Isolated(s0.calls)
    requires var s := Protocol.Run(s0, events); i < |s.calls| && s.calls[i].published
    ensures var me := Protocol.Run(s0, events).calls[i];
            OutputHistory(s0, events, more, me.name)(t) == TreeOf(me.bundle)
  {
    hide Protocol.Init, Protocol.Isolated, Protocol.Run, TreeOf;
    Protocol.PublishedIsComplete(s0, events, i);
    Protocol.PublishedPersists(s0, events, UpTo(more, t), i);
  }
}
