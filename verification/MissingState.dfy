/** The missing-product counters: one update, and what the counters mean over a whole history of runs. */
module MissingState {
  import opened Common
  import opened Ordering

  /** A parsed JSON value. */
  datatype Json =
    | Null
    | Bool(truth: bool)
    | Int(number: int)
    | Float(value: real)
    | Str(text: string)
    | List(items: seq<Json>)
    | Object(fields: map<string, Json>)

  type Fields = map<string, Json>

  const COUNT := "consecutive_missing_runs"

  /** A state document: its records, and every other field. */
  datatype State = State(header: Fields, products: map<string, Fields>)

  datatype Error =
    | MissingRunIdentity | MissingProductIdentity | NonPositiveThreshold
    | NotAnObject | UnsupportedSchema | SupplierMismatch | ProductsNotAnObject | InvalidRecord

  datatype Action = Action(action: string, product: string, sku: string, count: int)

  datatype Decision = Decision(complete: bool, allowed: bool, proposed: seq<Action>)

  /** What one run reports. */
  datatype RunInput = RunInput(runId: string, complete: bool, missing: map<string, string>)

  datatype Policy = Policy(action: Option<string>, threshold: Option<int>)
  {
    predicate Armed() { action.Some? && action.value != "" && threshold.Some? }
  }

  // ------------------------------------------------------------- specification

  /** Python's `== 1` on a JSON value. */
  predicate EqualsOne(v: Json) { v == Int(1) || v == Bool(true) || v == Float(1.0) }

  /** Python's `isinstance(count, int) and count >= 0`: booleans are integers. */
  predicate IsCount(v: Json) { v.Bool? || (v.Int? && v.number >= 0) }

  predicate GoodRecord(record: Fields) { COUNT in record ==> IsCount(record[COUNT]) }

  function CountOf(record: Fields): int {
    if COUNT !in record then 0
    else match record[COUNT]
         case Int(n) => n
         case Bool(b) => if b then 1 else 0
         case _ => 0
  }

  function Count(s: State, product: string): int {
    if product in s.products then CountOf(s.products[product]) else 0
  }

  function EmptyState(supplier: string): State {
    State(map["schema_version" := Int(1), "supplier" := Str(supplier),
              "last_run_id" := Null, "last_feed_complete" := Null], map[])
  }

  predicate GoodHeader(header: Fields, supplier: string) {
    && "schema_version" in header && EqualsOne(header["schema_version"])
    && "supplier" in header && header["supplier"] == Str(supplier)
  }

  ghost predicate Valid(s: State, supplier: string) {
    && "products" !in s.header && GoodHeader(s.header, supplier)
    && forall p | p in s.products :: GoodRecord(s.products[p])
  }

  function ToJson(s: State): Json {
    Object(s.header["products" := Object(map p | p in s.products :: Object(s.products[p]))])
  }

  /** `_validated_previous`. */
  function Validated(previous: Option<Json>, supplier: string): Result<State, Error> {
    match previous
    case None => Ok(EmptyState(supplier))
    case Some(json) =>
      if !json.Object? then Err(NotAnObject)
      else if !("schema_version" in json.fields && EqualsOne(json.fields["schema_version"])) then Err(UnsupportedSchema)
      else if !("supplier" in json.fields && json.fields["supplier"] == Str(supplier)) then Err(SupplierMismatch)
      else if !("products" in json.fields && json.fields["products"].Object?) then Err(ProductsNotAnObject)
      else
        var products := json.fields["products"].fields;
        if exists p | p in products :: !(products[p].Object? && GoodRecord(products[p].fields)) then Err(InvalidRecord)
        else Ok(State(json.fields - {"products"}, map p | p in products :: products[p].fields))
  }

  function Missed(record: Fields, sku: string, runId: string): Fields {
    record["sku" := Str(sku)][COUNT := Int(CountOf(record) + 1)]["last_missing_run_id" := Str(runId)]
  }

  function Seen(record: Fields, runId: string): Fields {
    record[COUNT := Int(0)]["last_seen_run_id" := Str(runId)]
  }

  function First(sku: string, runId: string): Fields {
    map["sku" := Str(sku), COUNT := Int(1), "last_missing_run_id" := Str(runId)]
  }

  /** Every record after a complete run. */
  function Records(products: map<string, Fields>, run: RunInput): map<string, Fields> {
    map p | p in products.Keys + run.missing.Keys ::
      if p !in products then First(run.missing[p], run.runId)
      else if p in run.missing then Missed(products[p], run.missing[p], run.runId)
      else Seen(products[p], run.runId)
  }

  /** The records after the first loop and that part of the second that leaves `todo`. */
  ghost function RecordsBut(products: map<string, Fields>, run: RunInput, todo: set<string>): map<string, Fields> {
    map p | p in Records(products, run) && (p in products || p !in todo) :: Records(products, run)[p]
  }

  function Next(s: State, run: RunInput): State {
    State(s.header["last_run_id" := Str(run.runId)]["last_feed_complete" := Bool(run.complete)],
          if run.complete then Records(s.products, run) else s.products)
  }

  /** The proposals for the missing products in a given order. */
  function Proposals(order: seq<string>, s: State, run: RunInput, action: string, threshold: int): seq<Action> {
    if order == [] then []
    else
      var p := order[|order| - 1];
      Proposals(order[..|order| - 1], s, run, action, threshold)
      + (if p in run.missing && Count(s, p) >= threshold then [Action(action, p, run.missing[p], Count(s, p))] else [])
  }

  ghost predicate Decides(d: Decision, s: State, run: RunInput, policy: Policy) {
    && d.complete == run.complete
    && d.allowed == (run.complete && policy.Armed())
    && if d.allowed
       then exists order ::
              Lists(order, run.missing.Keys, Below)
              && d.proposed == Proposals(order, s, run, policy.action.value, policy.threshold.value)
       else d.proposed == []
  }

  predicate GoodArguments(supplier: string, run: RunInput, policy: Policy) {
    && supplier != "" && run.runId != ""
    && (forall p | p in run.missing :: p != "" && run.missing[p] != "")
    && (policy.threshold.Some? ==> policy.threshold.value >= 1)
  }

  // ------------------------------------------------------------------ algorithm

  /** A JSON object on the heap that holds the record of one product. */
  class Record {
    var fields: Fields

    constructor (fields: Fields)
      ensures this.fields == fields
    {
      this.fields := fields;
    }
  }

  /** What may stand for a product, and in the place of all products, in a document of unknown origin. */
  datatype Entry = Holds(record: Record) | Other(value: Json)

  datatype Products = Absent | NoTable(value: Json) | Table(entries: map<string, Entry>)

  function EntryRecords(products: Products): set<Record> {
    if !products.Table? then {}
    else set p | p in products.entries && products.entries[p].Holds? :: products.entries[p].record
  }

  /** The caller's document: a heap object whose product records are heap objects. */
  class Document {
    var header: Fields
    var products: Products

    constructor (header: Fields, products: Products)
      ensures this.header == header && this.products == products
    {
      this.header, this.products := header, products;
    }

    ghost function Value(): Json
      reads this, EntryRecords(products)
    {
      match products
      case Absent => Object(header - {"products"})
      case NoTable(value) => Object(header["products" := value])
      case Table(entries) => Object(header["products" := Object(map p | p in entries :: EntryValue(entries[p]))])
    }
  }

  ghost function EntryValue(e: Entry): Json
    reads if e.Holds? then {e.record} else {}
  {
    match e case Holds(record) => Object(record.fields) case Other(value) => value
  }

  /** Objects are objects, and no two products share one. */
  predicate Parsed(entries: map<string, Entry>) {
    && (forall p | p in entries && entries[p].Other? :: !entries[p].value.Object?)
    && (forall p, q | p in entries && q in entries && p != q && entries[p].Holds? && entries[q].Holds? ::
          entries[p].record != entries[q].record)
  }

  datatype Previous = NoState | NoObject(value: Json) | Given(document: Document)
  {
    ghost function Value(): Option<Json>
      reads if Given? then {document} + EntryRecords(document.products) else {}
    {
      match this case NoState => None case NoObject(value) => Some(value) case Given(d) => Some(d.Value())
    }

    /** The shape of what JSON text parses to. */
    ghost predicate Sound()
      reads if Given? then {document} else {}
    {
      match this
      case NoState => true
      case NoObject(value) => !value.Object?
      case Given(d) =>
        match d.products
        case Absent => true
        case NoTable(value) => !value.Object?
        case Table(entries) => Parsed(entries)
    }
  }

  /** The deep copy that one update works on. */
  class StateDocument {
    var header: Fields
    var products: map<string, Record>

    constructor (header: Fields, products: map<string, Record>)
      ensures this.header == header && this.products == products
    {
      this.header, this.products := header, products;
    }

    ghost function Value(): State
      reads this, products.Values
    {
      State(header, map p | p in products :: products[p].fields)
    }

    /** No two products share a record. */
    ghost predicate Separate()
      reads `products
    {
      forall p, q | p in products && q in products && p != q :: products[p] != products[q]
    }

    /** The loop over the records that the state already has, each updated in place. */
    method CountKnown(run: RunInput)
      requires Separate()
      modifies products.Values
      ensures forall p | p in products :: products[p].fields == Records(old(Value().products), run)[p]
    {
      ghost var was := Value().products;
      var todo := products.Keys;
      hide Missed, Seen, First;
      while todo != {}
        invariant todo <= products.Keys
        invariant forall p | p in products :: products[p].fields == if p in todo then was[p] else Records(was, run)[p]
        decreases todo
      {
        var p :| p in todo;
        var record := products[p];
        if p in run.missing {
          record.fields := Missed(record.fields, run.missing[p], run.runId);
        } else {
          record.fields := Seen(record.fields, run.runId);
        }
        todo := todo - {p};
      }
    }

    method AddRecord(p: string, fields: Fields)
      requires Separate() && p !in products
      modifies this`products
      ensures Separate() && p in products && products == old(products)[p := products[p]] && fresh(products[p])
      ensures Value().products == old(Value().products)[p := fields]
    {
      var record := new Record(fields);
      assert forall q | q in products :: products[q] != record;
      products := products[p := record];
    }

    /** The loop over the missing products: new ones get a record of their own. */
    method AddMissing(run: RunInput, ghost was: map<string, Fields>)
      requires Separate() && Value().products == RecordsBut(was, run, run.missing.Keys)
      modifies this`products
      ensures Separate() && forall p | p in products :: products[p] in old(products.Values) || fresh(products[p])
      ensures Value().products == Records(was, run)
    {
      var todo := run.missing.Keys;
      hide Separate, RecordsBut, Records;
      while todo != {}
        invariant todo <= run.missing.Keys && Separate()
        invariant forall p | p in products :: products[p] in old(products.Values) || fresh(products[p])
        invariant Value().products == RecordsBut(was, run, todo)
        decreases todo
      {
        var p :| p in todo;
        assert products.Keys == Value().products.Keys;
        RecordsStep(was, run, todo, p);
        if p !in products {
          AddRecord(p, First(run.missing[p], run.runId));
        }
        todo := todo - {p};
      }
      RecordsDone(was, run);
    }

    /** Both loops over the records of a complete feed. */
    method CountMissing(run: RunInput)
      requires Separate()
      modifies this`products, products.Values
      ensures Separate() && forall p | p in products :: products[p] in old(products.Values) || fresh(products[p])
      ensures Value().products == Records(old(Value().products), run)
      ensures forall p | p in run.missing :: p in products
    {
      ghost var was := Value().products;
      assert was.Keys == products.Keys;
      hide Records;
      CountKnown(run);
      KnownRecords(was, run, Value().products);
      AddMissing(run, was);
      RecordsKeys(was, run);
      assert products.Keys == Value().products.Keys;
    }

    /** Everything between the deep copy and the proposals. */
    method Apply(run: RunInput)
      requires Separate()
      modifies this, products.Values
      ensures Separate() && forall p | p in products :: products[p] in old(products.Values) || fresh(products[p])
      ensures Value() == Next(old(Value()), run)
      ensures run.complete ==> forall p | p in run.missing :: p in products
    {
      hide Records, Separate;
      if run.complete {
        CountMissing(run);
      }
      label counted:
      header := header["last_run_id" := Str(run.runId)];
      header := header["last_feed_complete" := Bool(run.complete)];
      assert Value().products == old@counted(Value().products);
    }

    /** What `json.dumps` writes of the document. */
    method Dump() returns (s: State)
      ensures s == Value()
    {
      s := State(header, map p | p in products :: products[p].fields);
    }
  }

  lemma RecordsStep(was: map<string, Fields>, run: RunInput, todo: set<string>, p: string)
    requires p in todo && todo <= run.missing.Keys
    ensures p in RecordsBut(was, run, todo) <==> p in was
    ensures RecordsBut(was, run, todo - {p})
            == if p in was then RecordsBut(was, run, todo)
               else RecordsBut(was, run, todo)[p := First(run.missing[p], run.runId)]
  {
    hide Missed, Seen, First;
  }

  lemma RecordsDone(was: map<string, Fields>, run: RunInput)
    ensures RecordsBut(was, run, {}) == Records(was, run)
  {
    hide Missed, Seen, First;
  }

  lemma KnownRecords(was: map<string, Fields>, run: RunInput, now: map<string, Fields>)
    requires now.Keys == was.Keys && forall p | p in now :: now[p] == Records(was, run)[p]
    ensures now == RecordsBut(was, run, run.missing.Keys)
  {
    hide Missed, Seen, First;
  }

  lemma RecordsKeys(products: map<string, Fields>, run: RunInput)
    ensures Records(products, run).Keys == products.Keys + run.missing.Keys
  {}

  /** `deepcopy` of the products: a new record for each. */
  method CopyRecords(entries: map<string, Entry>) returns (copy: map<string, Record>)
    requires forall p | p in entries :: entries[p].Holds?
    ensures copy.Keys == entries.Keys
    ensures forall p | p in copy :: fresh(copy[p]) && copy[p].fields == old(entries[p].record.fields)
    ensures forall p, q | p in copy && q in copy && p != q :: copy[p] != copy[q]
  {
    copy := map[];
    var todo := entries.Keys;
    while todo != {}
      invariant todo <= entries.Keys && copy.Keys == entries.Keys - todo
      invariant forall p | p in copy :: fresh(copy[p]) && copy[p].fields == old(entries[p].record.fields)
      invariant forall p, q | p in copy && q in copy && p != q :: copy[p] != copy[q]
      decreases todo
    {
      var p :| p in todo;
      var record := new Record(entries[p].record.fields);
      copy := copy[p := record];
      todo := todo - {p};
    }
  }

  /** The tests outside the records. */
  function HeadError(document: Document, supplier: string): Option<Error>
    reads document
  {
    var header := document.header;
    if !("schema_version" in header && EqualsOne(header["schema_version"])) then Some(UnsupportedSchema)
    else if !("supplier" in header && header["supplier"] == Str(supplier)) then Some(SupplierMismatch)
    else if !document.products.Table? then Some(ProductsNotAnObject)
    else None
  }

  lemma HeadErrorMeans(document: Document, supplier: string)
    requires Given(document).Sound()
    ensures var error := HeadError(document, supplier);
            && (error.Some? ==> Validated(Some(document.Value()), supplier) == Err(error.value))
            && (error.None? ==> document.products.Table? && GoodHeader(document.header, supplier))
  {}

  lemma TableValidated(header: Fields, table: map<string, Json>, supplier: string)
    requires GoodHeader(header, supplier)
    ensures var v := Validated(Some(Object(header["products" := Object(table)])), supplier);
            && (v.Ok? <==> forall p | p in table :: table[p].Object? && GoodRecord(table[p].fields))
            && (v.Err? ==> v == Err(InvalidRecord))
            && (v.Ok? ==> v.value == State(header - {"products"}, map p | p in table :: table[p].fields))
  {
    assert header["products" := Object(table)] - {"products"} == header - {"products"};
    hide EqualsOne, GoodRecord;
  }

  /** `_validated_previous` on a document. */
  method ValidatedDocument(document: Document, supplier: string) returns (r: Result<StateDocument, Error>)
    requires Given(document).Sound()
    ensures r.Ok? <==> Validated(Some(old(document.Value())), supplier).Ok?
    ensures r.Err? ==> r == Err(Validated(Some(old(document.Value())), supplier).error)
    ensures r.Ok? ==> fresh(r.value) && fresh(r.value.products.Values) && r.value.Separate()
                      && r.value.Value() == Validated(Some(old(document.Value())), supplier).value
  {
    HeadErrorMeans(document, supplier);
    hide Validated, GoodHeader, GoodRecord, HeadError;
    var error := HeadError(document, supplier);
    if error.Some? { return Err(error.value); }
    var entries := document.products.entries;
    ghost var table := map p | p in entries :: EntryValue(entries[p]);
    TableValidated(document.header, table, supplier);
    if exists p | p in entries :: entries[p].Other? || !GoodRecord(entries[p].record.fields) {
      ghost var p :| p in entries && (entries[p].Other? || !GoodRecord(entries[p].record.fields));
      assert !(table[p].Object? && GoodRecord(table[p].fields));
      return Err(InvalidRecord);
    }
    var header := document.header - {"products"};
    var copy := CopyRecords(entries);
    var state := new StateDocument(header, copy);
    assert forall p | p in copy :: copy[p].fields == table[p].fields;
    return Ok(state);
  }

  /** `_validated_previous`. */
  method ValidatedPrevious(previous: Previous, supplier: string) returns (r: Result<StateDocument, Error>)
    requires previous.Sound()
    ensures r.Ok? <==> Validated(old(previous.Value()), supplier).Ok?
    ensures r.Err? ==> r == Err(Validated(old(previous.Value()), supplier).error)
    ensures r.Ok? ==> fresh(r.value) && fresh(r.value.products.Values) && r.value.Separate()
                      && r.value.Value() == Validated(old(previous.Value()), supplier).value
  {
    match previous
    case NoState =>
      var empty := new StateDocument(EmptyState(supplier).header, map[]);
      return Ok(empty);
    case NoObject(value) => return Err(NotAnObject);
    case Given(document) =>
      hide Validated, Document.Value;
      r := ValidatedDocument(document, supplier);
  }

  /** What `json.loads` builds: new objects for the document and for each record. */
  method Load(json: Option<Json>) returns (previous: Previous)
    ensures previous.Sound() && previous.Value() == json
  {
    if json.None? { return NoState; }
    if !json.value.Object? { return NoObject(json.value); }
    var fields := json.value.fields;
    var products: Products := Absent;
    if "products" in fields {
      if fields["products"].Object? {
        var entries := LoadEntries(fields["products"].fields);
        products := Table(entries);
      } else {
        products := NoTable(fields["products"]);
      }
    }
    var document := new Document(fields - {"products"}, products);
    if products.Table? {
      assert (map p | p in products.entries :: EntryValue(products.entries[p])) == fields["products"].fields;
    }
    assert "products" in fields ==> (fields - {"products"})["products" := fields["products"]] == fields;
    assert "products" !in fields ==> fields - {"products"} - {"products"} == fields;
    assert document.Value() == json.value;
    return Given(document);
  }

  method LoadEntries(table: map<string, Json>) returns (entries: map<string, Entry>)
    ensures entries.Keys == table.Keys
    ensures forall p | p in entries :: EntryValue(entries[p]) == table[p]
    ensures Parsed(entries) && forall p | p in entries && entries[p].Holds? :: fresh(entries[p].record)
  {
    entries := map[];
    var todo := table.Keys;
    while todo != {}
      invariant todo <= table.Keys && entries.Keys == table.Keys - todo
      invariant forall p | p in entries :: EntryValue(entries[p]) == table[p]
      invariant Parsed(entries) && forall p | p in entries && entries[p].Holds? :: fresh(entries[p].record)
      decreases todo
    {
      var p :| p in todo;
      if table[p].Object? {
        var record := new Record(table[p].fields);
        entries := entries[p := Holds(record)];
      } else {
        entries := entries[p := Other(table[p])];
      }
      todo := todo - {p};
    }
  }

  function ArgumentError(supplier: string, run: RunInput, policy: Policy): (error: Option<Error>)
    ensures error.None? <==> GoodArguments(supplier, run, policy)
    ensures error == Some(MissingRunIdentity) <==> supplier == "" || run.runId == ""
    ensures error == Some(MissingProductIdentity) <==>
              supplier != "" && run.runId != "" && exists p | p in run.missing :: p == "" || run.missing[p] == ""
  {
    if supplier == "" || run.runId == "" then Some(MissingRunIdentity)
    else if exists p | p in run.missing :: p == "" || run.missing[p] == "" then Some(MissingProductIdentity)
    else if policy.threshold.Some? && policy.threshold.value < 1 then Some(NonPositiveThreshold)
    else None
  }

  /** The proposals for the updated state, and the decision. */
  method Decide(state: StateDocument, run: RunInput, policy: Policy) returns (d: Decision)
    requires run.complete ==> forall p | p in run.missing :: p in state.products
    ensures Decides(d, state.Value(), run, policy)
  {
    var after := state.Dump();
    var proposed: seq<Action> := [];
    if run.complete && policy.Armed() {
      proposed := Propose(after, run, policy.action.value, policy.threshold.value);
    }
    return Decision(run.complete, run.complete && policy.Armed(), proposed);
  }

  /** `update_missing_state`: works in place on a deep copy; the caller's document and its records are
      what they were. */
  method UpdateMissingState(previous: Previous, supplier: string, run: RunInput, policy: Policy)
      returns (r: Result<(StateDocument, Decision), Error>)
    requires previous.Sound()
    ensures r.Ok? <==> GoodArguments(supplier, run, policy) && Validated(old(previous.Value()), supplier).Ok?
    ensures r.Ok? ==> fresh(r.value.0) && fresh(r.value.0.products.Values)
                      && r.value.0.Value() == Next(Validated(old(previous.Value()), supplier).value, run)
                      && Decides(r.value.1, r.value.0.Value(), run, policy)
    ensures supplier == "" || run.runId == "" ==> r == Err(MissingRunIdentity)
    ensures supplier != "" && run.runId != "" && (exists p | p in run.missing :: p == "" || run.missing[p] == "") ==>
              r == Err(MissingProductIdentity)
    ensures r.Err? && GoodArguments(supplier, run, policy) ==>
              r == Err(Validated(old(previous.Value()), supplier).error)
    ensures previous.Given? ==> unchanged(previous.document)
    ensures previous.Given? ==> forall record | record in EntryRecords(previous.document.products) :: unchanged(record)
  {
    hide ArgumentError, GoodArguments, Validated, Next, Decides, StateDocument.Value, StateDocument.Separate;
    var bad := ArgumentError(supplier, run, policy);
    if bad.Some? { return Err(bad.value); }
    var valid := ValidatedPrevious(previous, supplier);
    if valid.Err? { return Err(valid.error); }
    var state := valid.value;
    state.Apply(run);
    var decision := Decide(state, run, policy);
    return Ok((state, decision));
  }

  method Propose(s: State, run: RunInput, action: string, threshold: int) returns (proposed: seq<Action>)
    requires forall p | p in run.missing :: p in s.products
    ensures exists order :: Lists(order, run.missing.Keys, Below)
                            && proposed == Proposals(order, s, run, action, threshold)
  {
    var order := SortedKeys(run.missing.Keys);
    proposed := [];
    for i := 0 to |order|
      invariant proposed == Proposals(order[..i], s, run, action, threshold)
    {
      ListedOnly(order, run.missing.Keys, Below, i);
      var p := order[i];
      var count := CountOf(s.products[p]);
      if count >= threshold {
        proposed := proposed + [Action(action, p, run.missing[p], count)];
      }
      assert order[..i + 1][..i] == order[..i];
      hide Lists;
    }
    assert order[..|order|] == order;
  }

  // --------------------------------------------------------------- main theorems

  /** The histories of one supplier. */
  function Fold(s: State, runs: seq<RunInput>): State {
    if runs == [] then s else Next(Fold(s, runs[..|runs| - 1]), runs[|runs| - 1])
  }

  function CompleteRuns(runs: seq<RunInput>): seq<RunInput> {
    if runs == [] then []
    else
      var last := runs[|runs| - 1];
      CompleteRuns(runs[..|runs| - 1]) + (if last.complete then [last] else [])
  }

  /** `k` is the length of the longest suffix of runs that all miss the product. */
  ghost predicate MissedInExactlyTheLast(runs: seq<RunInput>, product: string, k: nat) {
    && k <= |runs|
    && (forall j | |runs| - k <= j < |runs| :: product in runs[j].missing)
    && (k < |runs| ==> product !in runs[|runs| - k - 1].missing)
  }

  /** What one run does to one counter. */
  lemma CountNext(s: State, run: RunInput, product: string)
    ensures Count(Next(s, run), product) ==
              if !run.complete then Count(s, product)
              else if product in run.missing then Count(s, product) + 1
              else 0
  {}

  /** The counter of a product is the number of most recent complete runs that all missed it,
      on top of what it was before if every complete run missed it. */
  lemma {:induction false} CounterCountsRecentMisses(s: State, runs: seq<RunInput>, product: string) returns (k: nat)
    ensures MissedInExactlyTheLast(CompleteRuns(runs), product, k)
    ensures Count(Fold(s, runs), product) ==
              if k == |CompleteRuns(runs)| then Count(s, product) + k else k
  {
    hide Next, Count;
    if runs == [] {
      k := 0;
    } else {
      var front, last := runs[..|runs| - 1], runs[|runs| - 1];
      k := CounterCountsRecentMisses(s, front, product);
      CountNext(Fold(s, front), last, product);
      if last.complete {
        k := if product in last.missing then k + 1 else 0;
      }
    }
  }

  /** Runs with an incomplete feed may be inserted or dropped anywhere: the records do not change. */
  lemma {:induction false} IncompleteRunsChangeNothing(s: State, runs: seq<RunInput>)
    ensures Fold(s, runs).products == Fold(s, CompleteRuns(runs)).products
  {
    hide Next;
    if runs != [] {
      var front, last := runs[..|runs| - 1], runs[|runs| - 1];
      IncompleteRunsChangeNothing(s, front);
      OnlyRecordsMatter(Fold(s, front), Fold(s, CompleteRuns(front)), last);
      if last.complete {
        assert (CompleteRuns(front) + [last])[..|CompleteRuns(front)|] == CompleteRuns(front);
        assert Fold(s, CompleteRuns(runs)) == Next(Fold(s, CompleteRuns(front)), last);
      } else {
        assert CompleteRuns(runs) == CompleteRuns(front);
      }
    }
  }

  lemma OnlyRecordsMatter(a: State, b: State, run: RunInput)
    requires a.products == b.products
    ensures Next(a, run).products == Next(b, run).products
    ensures !run.complete ==> Next(a, run).products == a.products
  {
    hide Records;
  }

  lemma {:induction false} ProposedMeans(order: seq<string>, s: State, run: RunInput, action: string, threshold: int,
                                         a: Action)
    ensures a in Proposals(order, s, run, action, threshold) <==>
              && a.action == action && a.product in order && a.product in run.missing
              && a.sku == run.missing[a.product] && a.count == Count(s, a.product) >= threshold
  {
    if order != [] {
      var front, p := order[..|order| - 1], order[|order| - 1];
      ProposedMeans(front, s, run, action, threshold, a);
      assert order == front + [p];
    }
    hide Count;
  }

  /** Starting from no state: an action is proposed for a product exactly when the feed is
      complete, the policy is armed, and the last `threshold` complete runs, this one
      included, all missed it. */
  lemma ProposedExactlyAtTheThreshold(supplier: string, runs: seq<RunInput>, run: RunInput, policy: Policy,
                                      d: Decision, product: string)
    requires var history := runs + [run]; Decides(d, Fold(EmptyState(supplier), history), run, policy)
    requires policy.threshold.Some? ==> policy.threshold.value >= 1
    ensures (exists a :: a in d.proposed && a.product == product) <==>
              && run.complete && policy.Armed()
              && exists k: nat :: k >= policy.threshold.value
                                  && MissedInExactlyTheLast(CompleteRuns(runs + [run]), product, k)
  {
    var history := runs + [run];
    var s := Fold(EmptyState(supplier), history);
    var k := CounterCountsRecentMisses(EmptyState(supplier), history, product);
    assert history[..|history| - 1] == runs;
    if run.complete && policy.Armed() {
      var order :| Lists(order, run.missing.Keys, Below)
                   && d.proposed == Proposals(order, s, run, policy.action.value, policy.threshold.value);
      var proposals := Proposals(order, s, run, policy.action.value, policy.threshold.value);
      forall a ensures a in d.proposed <==> a in proposals {}
      if product in run.missing {
        var a := Action(policy.action.value, product, run.missing[product], Count(s, product));
        ProposedMeans(order, s, run, policy.action.value, policy.threshold.value, a);
      }
      forall a | a in d.proposed && a.product == product ensures k >= policy.threshold.value {
        ProposedMeans(order, s, run, policy.action.value, policy.threshold.value, a);
      }
      forall other: nat | MissedInExactlyTheLast(CompleteRuns(history), product, other) ensures other == k {
        LongestSuffixIsUnique(CompleteRuns(history), product, k, other);
      }
    }
    hide Proposals, Fold, Sorted, Distinct;
  }

  lemma LongestSuffixIsUnique(runs: seq<RunInput>, product: string, j: nat, k: nat)
    requires MissedInExactlyTheLast(runs, product, j) && MissedInExactlyTheLast(runs, product, k)
    ensures j == k
  {}

  /** A state that a run writes is accepted, unchanged, as the previous state of the next run. */
  lemma WrittenStateIsAccepted(previous: Option<Json>, supplier: string, run: RunInput)
    requires Validated(previous, supplier).Ok?
    ensures var s := Next(Validated(previous, supplier).value, run);
            Validated(Some(ToJson(s)), supplier) == Ok(s)
  {
    var before := Validated(previous, supplier).value;
    assert Valid(before, supplier);
    NextKeepsValid(before, supplier, run);
    ValidRoundTrips(Next(before, run), supplier);
    hide Next;
  }

  lemma NextKeepsValid(s: State, supplier: string, run: RunInput)
    requires Valid(s, supplier)
    ensures Valid(Next(s, run), supplier)
  {
    forall p | p in Next(s, run).products ensures GoodRecord(Next(s, run).products[p]) {
      if p in s.products { assert GoodRecord(s.products[p]); }
      CountNonNegative(s, supplier, p);
    }
  }

  lemma CountNonNegative(s: State, supplier: string, product: string)
    requires Valid(s, supplier)
    ensures Count(s, product) >= 0
  {}

  lemma ValidRoundTrips(s: State, supplier: string)
    requires Valid(s, supplier)
    ensures Validated(Some(ToJson(s)), supplier) == Ok(s)
  {
    var fields := ToJson(s).fields;
    assert fields - {"products"} == s.header;
    var products := fields["products"].fields;
    assert (map p | p in products :: products[p].fields) == s.products;
  }
}
