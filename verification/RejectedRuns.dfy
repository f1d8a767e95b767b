/** Runs that go through and whose bundles are then refused, one for each way in which a feed can
    bring that about. */
module RejectedRuns {
  import opened Common
  import opened Ordering
  import opened Catalogue
  import opened Runner
  import opened RunLaws
  import In = RunInputs
  import State = MissingState
  import Files = Bundle

  const HEADERS := ["product_id", "model", "sku", "ean", "name", "manufacturer", "price", "quantity", "status",
                    "category_ids", "categories"]

  lemma HeadersAreGood(p: In.Parsers)
    requires forall name | name in In.REQUIRED :: p.text.strip(name) == name
    ensures In.GoodHeaders(p, HEADERS)
  {
    HeadersAreDistinct();
    RequiredAreThere();
    HeadersAreRequired();
    hide Distinct, HEADERS, In.REQUIRED;
    assert forall i | 0 <= i < |HEADERS| :: HEADERS[i] in In.REQUIRED;
  }

  lemma HeadersAreRequired()
    ensures HEADERS != [] && forall i | 0 <= i < |HEADERS| :: HEADERS[i] in In.REQUIRED && HEADERS[i] != ""
  {}

  /** A catalogue without products is acceptable, whatever number parsing does. */
  lemma EmptyCatalogueIsAccepted(p: In.Parsers, headers: seq<string>)
    requires In.GoodHeaders(p, headers)
    ensures In.Accepts(p, In.Table(headers, []))
  {
    hide In.GoodHeaders, Distinct;
    NothingTwice();
  }

  lemma NothingTwice()
    ensures Distinct<int>([])
  {}

  lemma HeadersAreDistinct()
    ensures Distinct(HEADERS)
  {
    // Length and second letter tell them apart.
    assert forall i, j | 0 <= i < j < |HEADERS| ::
        |HEADERS[i]| != |HEADERS[j]| || HEADERS[i][1] != HEADERS[j][1] || HEADERS[i][0] != HEADERS[j][0];
  }

  lemma RequiredAreThere()
    ensures forall name | name in In.REQUIRED :: name in HEADERS
  {
    assert forall i | 0 <= i < |HEADERS| :: HEADERS[i] in HEADERS;
    assert HEADERS[0] == "product_id" && HEADERS[1] == "model" && HEADERS[2] == "sku" && HEADERS[3] == "ean";
    assert HEADERS[4] == "name" && HEADERS[5] == "manufacturer" && HEADERS[6] == "price" && HEADERS[7] == "quantity";
    assert HEADERS[8] == "status" && HEADERS[9] == "category_ids" && HEADERS[10] == "categories";
  }

  /** What an adapter of this configuration may deliver: one item, in rubles. */
  function OneItem(config: Config, id: string, name: string, price: real): In.SnapshotItem {
    In.SnapshotItem(config.adapter.supplier,
                    SupplierItem(id, config.adapter.prefix + "1", None, None, None, None, [], "", price, "RUB"),
                    name, seq(64, _ => '0'))
  }

  function OneItemSnapshot(config: Config, source: Digest, item: In.SnapshotItem): In.Snapshot {
    In.Snapshot(source, map["RUB" := 1.0], [item])
  }

  lemma OneItemIsAccepted(t: Text, config: Config, source: Digest, id: string, name: string, price: real)
    requires config.adapter.minItems <= 1 <= config.adapter.maxItems && id != "" && t.strip(name) != ""
    ensures var snapshot := OneItemSnapshot(config, source, OneItem(config, id, name, price));
            In.AcceptsSnapshot(t, config.adapter, source, snapshot)
  {
    var item := OneItem(config, id, name, price);
    assert |item.rawHash| == 64;
    assert In.GoodItem(t, config.adapter, map["RUB" := 1.0], item);
  }

  /** The configuration, catalogue and previous state are such that a run can go through. */
  ghost predicate Runnable(p: In.Parsers, config: Config, table: In.Table, previous: Option<State.Json>) {
    && config.adapter.minItems <= 1 <= config.adapter.maxItems && config.adapter.supplier != ""
    && GoodPolicy(config.policy) && In.Accepts(p, table) && State.Validated(previous, config.adapter.supplier).Ok?
  }

  lemma FirstRunIsRunnable(p: In.Parsers, config: Config)
    requires config.adapter.minItems <= 1 <= config.adapter.maxItems && config.adapter.supplier != ""
    requires GoodPolicy(config.policy) && forall name | name in In.REQUIRED :: p.text.strip(name) == name
    ensures Runnable(p, config, In.Table(HEADERS, []), None)
  {
    hide *;
    HeadersAreGood(p);
    EmptyCatalogueIsAccepted(p, HEADERS);
    FirstState(config.adapter.supplier);
    CanRun(p, config, In.Table(HEADERS, []), None);
  }

  lemma CanRun(p: In.Parsers, config: Config, table: In.Table, previous: Option<State.Json>)
    requires config.adapter.minItems <= 1 <= config.adapter.maxItems && config.adapter.supplier != ""
    requires GoodPolicy(config.policy) && In.Accepts(p, table) && State.Validated(previous, config.adapter.supplier).Ok?
    ensures Runnable(p, config, table, previous)
  {
    hide GoodPolicy, In.Accepts, State.Validated;
  }

  /** With any such configuration, a feed whose one item is called "-1" is built, and refused. */
  method MinusOneGoesThrough(p: In.Parsers, codec: Files.RowCodec, config: Config, source: Digest, catalogue: Digest,
                             table: In.Table, previous: Option<State.Json>, name: string, price: real)
      returns (r: Result<Built, Error>)
    requires Runnable(p, config, table, previous) && p.text.strip(name) != ""
    requires codec.JsonText([OneItem(config, "-1", name, price)])
    ensures r.Ok? && !Files.RowsVerify(codec, r.value.bundle)
  {
    var item := OneItem(config, "-1", name, price);
    var snapshot := OneItemSnapshot(config, source, item);
    OneItemIsAccepted(p.text, config, source, "-1", name, price);
    hide In.AcceptsSnapshot, In.Accepts, State.Validated, IsRun, Files.RowsVerify, Files.RowCodec.JsonText;
    ghost var input;
    r, input := BuildPilot(p, codec, config, source, catalogue, snapshot, table, previous);
    MinusOneIsRejected(p, codec, config, source, snapshot, table, previous, input, r.value, 0);
  }

  /** The same holds of an item with any other id, if its JSON text keeps a U+0085, U+2028 or U+2029
      of the name as it is. */
  method LineSeparatorGoesThrough(p: In.Parsers, codec: Files.RowCodec, config: Config, source: Digest,
                                  catalogue: Digest, table: In.Table, previous: Option<State.Json>, id: string,
                                  name: string, price: real, separator: char)
      returns (r: Result<Built, Error>)
    requires Runnable(p, config, table, previous) && p.text.strip(name) != "" && id != ""
    requires separator in {'\U{0085}', '\U{2028}', '\U{2029}'} && separator in name
    requires codec.JsonText([OneItem(config, id, name, price)])
    requires separator in codec.encode(OneItem(config, id, name, price))
    ensures r.Ok? && !Files.RowsVerify(codec, r.value.bundle)
  {
    var item := OneItem(config, id, name, price);
    var snapshot := OneItemSnapshot(config, source, item);
    OneItemIsAccepted(p.text, config, source, id, name, price);
    Files.OnlyThreeCharactersBreak(codec, item);
    hide In.AcceptsSnapshot, In.Accepts, State.Validated, IsRun, Files.RowsVerify, Files.RowCodec.JsonText,
         Files.OneLine, Unchanged, NoEscapedTwin;
    ghost var input;
    r, input := BuildPilot(p, codec, config, source, catalogue, snapshot, table, previous);
    BuiltBundlesVerify(p, codec, config, source, snapshot, table, previous, input, r.value);
    assert snapshot.items[0] == item;
  }

  // ------------------------------------------------- what is assumed of JSON can be had

  function FirstIndex(rows: seq<In.SnapshotItem>, row: In.SnapshotItem): (k: nat)
    requires row in rows
    ensures k < |rows| && rows[k] == row
  {
    if rows[0] == row then 0 else 1 + FirstIndex(rows[1..], row)
  }

  /** A text for each of the given rows, by its place. */
  function Numbered(rows: seq<In.SnapshotItem>): Files.RowCodec {
    Files.RowCodec(
      row => if row in rows then "{" + seq(FirstIndex(rows, row), _ => '0') + "}" else "",
      s => if |s| >= 2 && s[|s| - 1] == '}' && |s| - 2 < |rows| then Some(rows[|s| - 2]) else None,
      s => s == "")
  }

  /** For any rows there is a codec that does what `JsonText` says. */
  lemma JsonTextIsPossible(rows: seq<In.SnapshotItem>)
    ensures Numbered(rows).JsonText(rows)
  {
    var codec := Numbered(rows);
    forall row | row in rows
      ensures codec.decode(codec.encode(row)) == Some(row) && codec.encode(row) != "" && codec.encode(row)[0] == '{'
      ensures forall i | 0 <= i < |codec.encode(row)| :: codec.encode(row)[i] >= ' '
      ensures forall n | 0 <= n < |codec.encode(row)| :: codec.decode(codec.encode(row)[..n]) == None
    {
      NumberedRow(rows, row);
    }
    hide Numbered;
  }

  lemma NumberedRow(rows: seq<In.SnapshotItem>, row: In.SnapshotItem)
    requires row in rows
    ensures var codec := Numbered(rows);
            && codec.decode(codec.encode(row)) == Some(row) && codec.encode(row) != "" && codec.encode(row)[0] == '{'
            && (forall i | 0 <= i < |codec.encode(row)| :: codec.encode(row)[i] >= ' ')
            && (forall n | 0 <= n < |codec.encode(row)| :: codec.decode(codec.encode(row)[..n]) == None)
  {
    var k := FirstIndex(rows, row);
    var text := Numbered(rows).encode(row);
    assert text == "{" + seq(k, _ => '0') + "}";
    hide FirstIndex;
    assert |text| == k + 2 && text[k + 1] == '}';
  }
}
