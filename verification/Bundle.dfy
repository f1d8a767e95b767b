/** The rows of a finished bundle as they are written to CSV and JSON lines, and the row-level
    checks of `verify_run` on what it reads back. */
module Bundle {
  import opened Common
  import opened Ordering
  import opened RunInputs
  import opened MissingState

  // ------------------------------------------------------------------ CSV cells

  /** Python's `lstrip(" \t\r\n")`. */
  function LeftStripped(s: string): string {
    if s != "" && s[0] in {' ', '\t', '\r', '\n'} then LeftStripped(s[1..]) else s
  }

  /** A spreadsheet would take the text for a formula. */
  predicate Formula(s: string) {
    LeftStripped(s) != "" && LeftStripped(s)[0] in {'=', '+', '-', '@'}
  }

  /** `_csv_value` on text. */
  function CsvValue(s: string): string { if Formula(s) then "'" + s else s }

  lemma QuotedIsNoFormula(s: string)
    ensures !Formula("'" + s)
  {
    assert LeftStripped("'" + s) == "'" + s;
  }

  /** Escaping is idempotent, and confuses a formula with its own escaped form, and nothing else. */
  lemma CsvCollision(s: string, t: string)
    ensures CsvValue(CsvValue(s)) == CsvValue(s)
    ensures s != t ==>
              (CsvValue(s) == CsvValue(t) <==> (Formula(s) && t == "'" + s) || (Formula(t) && s == "'" + t))
  {
    QuotedIsNoFormula(s);
    QuotedIsNoFormula(t);
    assert ("'" + s)[1..] == s && ("'" + t)[1..] == t;
    hide Formula;
  }

  /** The position of the first character that is not blank. */
  lemma {:induction false} LeftStrippedMeans(s: string, k: nat)
    requires k <= |s| && (forall i | 0 <= i < k :: s[i] in {' ', '\t', '\r', '\n'})
    requires k < |s| ==> s[k] !in {' ', '\t', '\r', '\n'}
    ensures LeftStripped(s) == s[k..]
  {
    if k > 0 { LeftStrippedMeans(s[1..], k - 1); }
  }

  /** A text whose first character past blanks is one of four is written with a quote before it, and any
      other text as it is. */
  lemma CsvValueMeans(s: string, k: nat)
    requires k <= |s| && (forall i | 0 <= i < k :: s[i] in {' ', '\t', '\r', '\n'})
    requires k < |s| ==> s[k] !in {' ', '\t', '\r', '\n'}
    ensures CsvValue(s) ==
              if k < |s| && (s[k] == '=' || s[k] == '+' || s[k] == '-' || s[k] == '@') then "'" + s else s
  {
    LeftStrippedMeans(s, k);
  }

  /** What starts with a letter or a digit, say, is written as it is. */
  lemma SafePrefix(prefix: string, s: string)
    requires StartsWith(s, prefix) && prefix != "" && prefix[0] !in {' ', '\t', '\r', '\n', '=', '+', '-', '@'}
    ensures CsvValue(s) == s
  {
    assert s[0] == prefix[0];
  }

  // ----------------------------------------------------------------- JSON lines

  /** The line boundaries of `str.splitlines`. */
  predicate Breaks(c: char) {
    || c == '\n' || c == '\r' || c == '\U{000B}' || c == '\U{000C}' || c == '\U{001C}' || c == '\U{001D}'
    || c == '\U{001E}' || c == '\U{0085}' || c == '\U{2028}' || c == '\U{2029}'
  }

  function FirstBreak(s: string): (k: nat)
    ensures k <= |s| && (k < |s| ==> Breaks(s[k])) && forall i | 0 <= i < k :: !Breaks(s[i])
  {
    if s == "" || Breaks(s[0]) then 0
    else
      var k := FirstBreak(s[1..]);
      assert forall i | 1 <= i < k + 1 :: s[i] == s[1..][i - 1];
      k + 1
  }

  function SplitLines(s: string): seq<string>
    decreases |s|
  {
    if s == "" then []
    else
      var k := FirstBreak(s);
      if k == |s| then [s]
      else
        var width := if s[k] == '\r' && k + 1 < |s| && s[k + 1] == '\n' then 2 else 1;
        [s[..k]] + SplitLines(s[k + width..])
  }

  /** JSON text of a row, left abstract. */
  datatype RowCodec = RowCodec(encode: SnapshotItem -> string, decode: string -> Option<SnapshotItem>,
                               blank: string -> bool)
  {
    /** What `json.dumps(..., ensure_ascii=False)` guarantees of these objects: each reads back, starts
        with its brace, has its control characters below space escaped, and no proper beginning of
        its text is JSON. */
    ghost predicate JsonText(rows: seq<SnapshotItem>) {
      && (forall row | row in rows :: decode(encode(row)) == Some(row) && encode(row) != "" && encode(row)[0] == '{')
      && (forall row, i | row in rows && 0 <= i < |encode(row)| :: encode(row)[i] >= ' ')
      && (forall row, n | row in rows && 0 <= n < |encode(row)| :: decode(encode(row)[..n]) == None)
      && (forall s: string | s != "" && s[0] == '{' :: !blank(s))
    }
  }

  function WriteLines(codec: RowCodec, rows: seq<SnapshotItem>): string {
    if rows == [] then "" else codec.encode(rows[0]) + "\n" + WriteLines(codec, rows[1..])
  }

  /** Blank lines are skipped; one line that is not JSON spoils the whole file. */
  function ParseLines(codec: RowCodec, lines: seq<string>): Option<seq<SnapshotItem>> {
    if lines == [] then Some([])
    else if codec.blank(lines[0]) then ParseLines(codec, lines[1..])
    else
      var row := codec.decode(lines[0]);
      if row.None? then None
      else
        var rest := ParseLines(codec, lines[1..]);
        if rest.None? then None else Some([row.value] + rest.value)
  }

  function ReadLines(codec: RowCodec, text: string): Option<seq<SnapshotItem>> { ParseLines(codec, SplitLines(text)) }

  /** The text of a row stays on one line. */
  predicate OneLine(s: string) { forall i | 0 <= i < |s| :: !Breaks(s[i]) }

  lemma BreakAt(s: string, k: nat)
    requires k < |s| && Breaks(s[k]) && forall i | 0 <= i < k :: !Breaks(s[i])
    ensures FirstBreak(s) == k
  {}

  lemma FirstLine(line: string, rest: string)
    ensures OneLine(line) ==> SplitLines(line + "\n" + rest) == [line] + SplitLines(rest)
    ensures !OneLine(line) ==>
              var k := FirstBreak(line);
              k < |line| && |SplitLines(line + "\n" + rest)| > 0 && SplitLines(line + "\n" + rest)[0] == line[..k]
  {
    var s := line + "\n" + rest;
    if OneLine(line) {
      BreakAt(s, |line|);
      assert s[..|line|] == line && s[|line| + 1..] == rest;
    } else {
      var k := FirstBreak(line);
      BreakAt(s, k);
      assert s[..k] == line[..k];
    }
  }

  /** Reading gives back exactly what was written, unless some text contains a character that only
      the reader takes for the end of a line; then nothing is read. */
  lemma {:induction false} JsonLinesRoundTrip(codec: RowCodec, rows: seq<SnapshotItem>)
    requires codec.JsonText(rows)
    ensures ReadLines(codec, WriteLines(codec, rows))
            == if forall i | 0 <= i < |rows| :: OneLine(codec.encode(rows[i])) then Some(rows) else None
  {
    if rows == [] {
      NothingWritten(codec);
    } else {
      hide RowCodec.JsonText, OneLine, ReadLines;
      JsonTextParts(codec, rows);
      JsonLinesRoundTrip(codec, rows[1..]);
      FirstRow(codec, rows[0], WriteLines(codec, rows[1..]));
      assert forall i | 0 <= i < |rows[1..]| :: rows[1..][i] == rows[i + 1];
      assert forall i | 1 <= i < |rows| :: rows[i] == rows[1..][i - 1];
      assert rows == [rows[0]] + rows[1..];
    }
  }

  lemma NothingWritten(codec: RowCodec)
    ensures ReadLines(codec, WriteLines(codec, [])) == Some([])
  {}

  lemma JsonTextParts(codec: RowCodec, rows: seq<SnapshotItem>)
    requires codec.JsonText(rows) && rows != []
    ensures codec.JsonText([rows[0]]) && codec.JsonText(rows[1..])
  {}

  lemma FirstRow(codec: RowCodec, row: SnapshotItem, rest: string)
    requires codec.JsonText([row])
    ensures ReadLines(codec, codec.encode(row) + "\n" + rest)
            == if OneLine(codec.encode(row)) && ReadLines(codec, rest).Some?
               then Some([row] + ReadLines(codec, rest).value)
               else None
  {
    var line := codec.encode(row);
    assert row in [row];
    FirstLine(line, rest);
    assert line[0] == '{' && !codec.blank(line) && codec.decode(line) == Some(row);
    var lines := SplitLines(line + "\n" + rest);
    if OneLine(line) {
      hide SplitLines, FirstBreak, Breaks, OneLine;
      assert lines[1..] == SplitLines(rest);
    } else {
      FirstCharacterKept(line);
      hide SplitLines, FirstBreak, Breaks, OneLine;
      assert !codec.blank(lines[0]) && codec.decode(lines[0]) == None;
    }
  }

  lemma FirstCharacterKept(line: string)
    requires line != "" && line[0] == '{'
    ensures FirstBreak(line) > 0 && line[..FirstBreak(line)] != "" && line[..FirstBreak(line)][0] == '{'
  {}

  /** Text without these three characters is safe, as every other boundary is escaped. */
  lemma OnlyThreeCharactersBreak(codec: RowCodec, row: SnapshotItem)
    requires codec.JsonText([row])
    ensures OneLine(codec.encode(row)) <==>
              forall i | 0 <= i < |codec.encode(row)| :: codec.encode(row)[i] !in {'\U{0085}', '\U{2028}', '\U{2029}'}
  {
    assert row in [row];
  }

  // ------------------------------------------------------------------ the bundle

  datatype Identity = Identity(id: string, sku: string)

  datatype FeedStatus = Complete | BlockedIncomplete

  datatype RunSummary = RunSummary(
    sourceItems: nat,
    sourceOnly: nat,
    reviewQueue: nat,
    categories: nat,
    categoryProducts: nat,
    missing: nat,
    matches: map<string, nat>,
    proposals: map<string, nat>,
    feed: FeedStatus,
    missingActionsAllowed: bool,
    decision: Decision)

  /** The artifacts, each with the cells that the checks look at. */
  datatype Bundle = Bundle(
    normalized: seq<Identity>,
    jsonl: string,
    matches: seq<string>,
    proposals: seq<string>,
    sourceOnly: seq<string>,
    reviewQueue: seq<string>,
    categories: seq<string>,
    categoryProducts: seq<string>,
    missing: seq<int>,
    summary: RunSummary)

  /** Python's `Counter`. */
  function Counted(s: seq<string>): map<string, nat> {
    if s == [] then map[]
    else
      var front, x := Counted(s[..|s| - 1]), s[|s| - 1];
      front[x := (if x in front then front[x] else 0) + 1]
  }

  method CountStatuses(s: seq<string>) returns (counts: map<string, nat>)
    ensures counts == Counted(s)
  {
    counts := map[];
    for i := 0 to |s|
      invariant counts == Counted(s[..i])
    {
      assert s[..i + 1][..i] == s[..i];
      counts := counts[s[i] := (if s[i] in counts then counts[s[i]] else 0) + 1];
    }
    assert s[..|s|] == s;
  }

  function IdColumn(rows: seq<Identity>): seq<string> { seq(|rows|, i requires 0 <= i < |rows| => rows[i].id) }

  function SkuColumn(rows: seq<Identity>): seq<string> { seq(|rows|, i requires 0 <= i < |rows| => rows[i].sku) }

  /** What the row-level checks demand, all together. */
  ghost predicate RowsVerify(codec: RowCodec, b: Bundle) {
    var parsed := ReadLines(codec, b.jsonl);
    && parsed.Some?
    && |b.normalized| == |parsed.value| == |b.matches| == |b.proposals| == b.summary.sourceItems
    && |b.sourceOnly| == b.summary.sourceOnly && |b.reviewQueue| == b.summary.reviewQueue
    && |b.categories| == b.summary.categories && |b.categoryProducts| == b.summary.categoryProducts
    && |b.missing| == b.summary.missing
    && Distinct(IdColumn(b.normalized)) && Distinct(SkuColumn(b.normalized))
    && ItemIds(parsed.value) == IdColumn(b.normalized)
    && Counted(b.matches) == b.summary.matches && Counted(b.proposals) == b.summary.proposals
    && (b.summary.feed == BlockedIncomplete ==>
          !b.summary.missingActionsAllowed && !b.summary.decision.allowed && b.summary.decision.proposed == [])
  }

  datatype Artifact =
    | Normalized | NormalizedJsonl | Matches | Proposals | SourceOnly | ReviewQueue
    | CategoryMapping | ProductCategories
    | Missing

  datatype CheckName =
    | ArtifactJsonl | CountOf(artifact: Artifact) | IdentityUnique | IdentityParity
    | MatchStatusCounts | ProposalStatusCounts
    | MissingActionGate

  /** The expected counts: artifact, rows found, rows announced. */
  function ExpectedCounts(b: Bundle, jsonRows: nat): seq<(Artifact, nat, nat)> {
    [(Normalized, |b.normalized|, b.summary.sourceItems), (NormalizedJsonl, jsonRows, b.summary.sourceItems),
     (Matches, |b.matches|, b.summary.sourceItems), (Proposals, |b.proposals|, b.summary.sourceItems),
     (SourceOnly, |b.sourceOnly|, b.summary.sourceOnly), (ReviewQueue, |b.reviewQueue|, b.summary.reviewQueue),
     (CategoryMapping, |b.categories|, b.summary.categories),
     (ProductCategories, |b.categoryProducts|, b.summary.categoryProducts), (Missing, |b.missing|, b.summary.missing)]
  }

  lemma CountsAgree(b: Bundle, jsonRows: nat)
    ensures var counts := ExpectedCounts(b, jsonRows);
            && (forall i, j | 0 <= i < j < |counts| :: counts[i].0 != counts[j].0)
            && ((forall i | 0 <= i < |counts| :: counts[i].1 == counts[i].2) <==>
                  && |b.normalized| == jsonRows == |b.matches| == |b.proposals| == b.summary.sourceItems
                  && |b.sourceOnly| == b.summary.sourceOnly && |b.reviewQueue| == b.summary.reviewQueue
                  && |b.categories| == b.summary.categories && |b.categoryProducts| == b.summary.categoryProducts
                  && |b.missing| == b.summary.missing)
  {
    var counts := ExpectedCounts(b, jsonRows);
    if forall i | 0 <= i < |counts| :: counts[i].1 == counts[i].2 {
      assert counts[0].1 == counts[0].2 && counts[1].1 == counts[1].2 && counts[2].1 == counts[2].2;
      assert counts[3].1 == counts[3].2 && counts[4].1 == counts[4].2 && counts[5].1 == counts[5].2;
      assert counts[6].1 == counts[6].2 && counts[7].1 == counts[7].2 && counts[8].1 == counts[8].2;
    }
  }

  /** `len({...}) == len(rows)` for both identity columns. */
  method IdentitiesUnique(rows: seq<Identity>) returns (unique: bool)
    ensures unique <==> Distinct(IdColumn(rows)) && Distinct(SkuColumn(rows))
  {
    var ids, skus := IdColumn(rows), SkuColumn(rows);
    CardinalityOfElements(ids);
    CardinalityOfElements(skus);
    unique := |set x | x in ids| == |rows| && |set x | x in skus| == |rows|;
  }

  /** The shared dictionary of check results. */
  class Verifier {
    var checks: map<CheckName, bool>

    constructor ()
      ensures checks == map[]
    {
      checks := map[];
    }

    ghost predicate Passed()
      reads this
    {
      forall name | name in checks :: checks[name]
    }

    method Check(name: CheckName, condition: bool)
      requires name !in checks
      modifies this
      ensures checks == old(checks)[name := condition]
      ensures Passed() <==> old(Passed()) && condition
    {
      checks := checks[name := condition];
      assert old(Passed()) && condition ==> Passed();
      assert Passed() ==> checks[name] && forall n | n in old(checks) :: checks[n];
    }

    /** The loop over the expected counts. */
    method CheckCounts(counts: seq<(Artifact, nat, nat)>)
      requires forall i, j | 0 <= i < j < |counts| :: counts[i].0 != counts[j].0
      requires forall i | 0 <= i < |counts| :: CountOf(counts[i].0) !in checks
      modifies this
      ensures forall name | name in checks :: name in old(checks) || name.CountOf?
      ensures Passed() <==> old(Passed()) && forall i | 0 <= i < |counts| :: counts[i].1 == counts[i].2
    {
      for i := 0 to |counts|
        invariant forall j | i <= j < |counts| :: CountOf(counts[j].0) !in checks
        invariant forall name | name in checks :: name in old(checks) || name.CountOf?
        invariant Passed() <==> old(Passed()) && forall j | 0 <= j < i :: counts[j].1 == counts[j].2
      {
        Check(CountOf(counts[i].0), counts[i].1 == counts[i].2);
        hide Passed;
      }
    }

    /** The row-level part of `verify_run`. */
    method VerifyRows(codec: RowCodec, b: Bundle)
      requires checks == map[]
      modifies this
      ensures Passed() <==> RowsVerify(codec, b)
    {
      hide Passed, Counted, Distinct, ReadLines, IdColumn, SkuColumn, ItemIds;
      NothingChecked();
      var gate := b.summary.feed == BlockedIncomplete ==>
          !b.summary.missingActionsAllowed && !b.summary.decision.allowed && b.summary.decision.proposed == [];
      Check(MissingActionGate, gate);
      var parsed := ReadLines(codec, b.jsonl);
      Check(ArtifactJsonl, parsed.Some?);
      var rows := if parsed.Some? then parsed.value else [];
      var counts := ExpectedCounts(b, |rows|);
      CountsAgree(b, |rows|);
      hide ExpectedCounts;
      CheckCounts(counts);
      CheckColumns(b, rows);
    }

    /** The checks on the columns of ids, SKUs and statuses. */
    method CheckColumns(b: Bundle, rows: seq<SnapshotItem>)
      requires forall name | name in checks :: name.CountOf? || name == MissingActionGate || name == ArtifactJsonl
      modifies this
      ensures Passed() <==>
                && old(Passed()) && Distinct(IdColumn(b.normalized)) && Distinct(SkuColumn(b.normalized))
                && ItemIds(rows) == IdColumn(b.normalized)
                && Counted(b.matches) == b.summary.matches && Counted(b.proposals) == b.summary.proposals
    {
      hide Passed, Counted, Distinct, IdColumn, SkuColumn, ItemIds;
      var unique := IdentitiesUnique(b.normalized);
      Check(IdentityUnique, unique);
      Check(IdentityParity, ItemIds(rows) == IdColumn(b.normalized));
      var matches := CountStatuses(b.matches);
      var proposals := CountStatuses(b.proposals);
      Check(MatchStatusCounts, matches == b.summary.matches);
      Check(ProposalStatusCounts, proposals == b.summary.proposals);
    }

    lemma NothingChecked()
      ensures checks == map[] ==> Passed()
    {}
  }
}
