/** What an update of the missing-product state reads, writes and proposes, key by key. */
module StateMeaning {
  import opened Common
  import opened Ordering
  import opened MissingState

  /** The record says that the product was missing in this many runs. */
  predicate Says(record: Fields, n: int) {
    if "consecutive_missing_runs" !in record then n == 0
    else record["consecutive_missing_runs"]
         == Int(n) || (record["consecutive_missing_runs"] == Bool(true) && n == 1)
         || (record["consecutive_missing_runs"] == Bool(false) && n == 0)
  }

  /** Only these keys may differ. */
  ghost predicate SameBut(was: Fields, now: Fields, keys: set<string>) {
    && now.Keys == was.Keys + keys
    && forall k | k in was && k !in keys :: now[k] == was[k]
  }

  /** One record after a complete run: of a product seen for the first time, missing again, or seen. */
  ghost predicate RecordAfter(was: map<string, Fields>, run: RunInput, p: string, now: Fields) {
    if p !in was then
      p in run.missing
      && now == map["sku" := Str(run.missing[p]), "consecutive_missing_runs" := Int(1),
                    "last_missing_run_id" := Str(run.runId)]
    else if p in run.missing then
      && SameBut(was[p], now, {"sku", "consecutive_missing_runs", "last_missing_run_id"})
      && now["sku"] == Str(run.missing[p]) && now["last_missing_run_id"] == Str(run.runId)
      && forall n | Says(was[p], n) :: now["consecutive_missing_runs"] == Int(n + 1)
    else
      && SameBut(was[p], now, {"consecutive_missing_runs", "last_seen_run_id"})
      && now["consecutive_missing_runs"] == Int(0) && now["last_seen_run_id"] == Str(run.runId)
  }

  /** The whole state after a run. */
  ghost predicate Updated(was: State, run: RunInput, now: State) {
    && SameBut(was.header, now.header, {"last_run_id", "last_feed_complete"})
    && now.header["last_run_id"] == Str(run.runId) && now.header["last_feed_complete"] == Bool(run.complete)
    && (!run.complete ==> now.products == was.products)
    && (run.complete ==>
          && now.products.Keys == was.products.Keys + run.missing.Keys
          && forall p | p in now.products :: RecordAfter(was.products, run, p, now.products[p]))
  }

  lemma RecordMeans(was: map<string, Fields>, run: RunInput, p: string)
    requires p in was || p in run.missing
    requires p in was ==> GoodRecord(was[p])
    ensures p in Records(was, run) && RecordAfter(was, run, p, Records(was, run)[p])
  {
    KeysDiffer();
    if p in was { OldCount(was[p]); }
  }

  lemma OldCount(record: Fields)
    requires GoodRecord(record)
    ensures forall n :: Says(record, n) <==> n == CountOf(record)
  {}

  lemma KeysDiffer()
    ensures "sku" != "consecutive_missing_runs" && "sku" != "last_missing_run_id" && "sku" != "last_seen_run_id"
    ensures "consecutive_missing_runs" != "last_missing_run_id" && "consecutive_missing_runs" != "last_seen_run_id"
    ensures "last_run_id" != "last_feed_complete"
  {
    assert "sku"[0] == 's' && "consecutive_missing_runs"[0] == 'c' && "last_missing_run_id"[0] == 'l';
    assert "last_seen_run_id"[0] == 'l' && "last_run_id"[5] == 'r' && "last_feed_complete"[5] == 'f';
  }

  lemma NextMeans(was: State, run: RunInput)
    requires forall p | p in was.products :: GoodRecord(was.products[p])
    ensures Updated(was, run, Next(was, run))
  {
    KeysDiffer();
    if run.complete {
      RecordsKeys(was.products, run);
      forall p | p in Records(was.products, run)
        ensures RecordAfter(was.products, run, p, Records(was.products, run)[p])
      {
        RecordMeans(was.products, run, p);
      }
    }
    hide Records, RecordAfter, GoodRecord;
  }

  // --------------------------------------------------------------- the previous state

  /** A count that a record may hold: a boolean, or an integer that is not negative. */
  predicate MayCount(v: Json) { v.Bool? || (v.Int? && v.number >= 0) }

  /** The documents that are accepted as previous states. */
  ghost predicate Acceptable(json: Json, supplier: string) {
    && json.Object?
    && "schema_version" in json.fields && json.fields["schema_version"] in {Int(1), Bool(true), Float(1.0)}
    && "supplier" in json.fields && json.fields["supplier"] == Str(supplier)
    && "products" in json.fields && json.fields["products"].Object?
    && var products := json.fields["products"].fields;
       forall p | p in products ::
         products[p].Object?
         && ("consecutive_missing_runs" in products[p].fields ==>
               MayCount(products[p].fields["consecutive_missing_runs"]))
  }

  /** Which documents are accepted, what is taken over, and which of the faults is reported. */
  lemma ValidatedMeans(json: Json, supplier: string)
    ensures var v := Validated(Some(json), supplier);
            && (v.Ok? <==> Acceptable(json, supplier))
            && (v.Ok? ==>
                  && v.value.header == json.fields - {"products"}
                  && v.value.products.Keys == json.fields["products"].fields.Keys
                  && forall p | p in v.value.products ::
                       && v.value.products[p] == json.fields["products"].fields[p].fields
                       && GoodRecord(v.value.products[p]))
            && (v == Err(NotAnObject) <==> !json.Object?)
            && (v == Err(UnsupportedSchema) <==>
                  json.Object? && ("schema_version" in json.fields ==>
                                     json.fields["schema_version"] !in {Int(1), Bool(true), Float(1.0)}))
            && (v == Err(SupplierMismatch) ==>
                  ("supplier" in json.fields ==> json.fields["supplier"] != Str(supplier)))
            && (v == Err(ProductsNotAnObject) ==>
                  ("products" in json.fields ==> !json.fields["products"].Object?))
            && (v == Err(InvalidRecord) ==> "products" in json.fields && json.fields["products"].Object?)
            && (v.Err? ==> v.error in {NotAnObject, UnsupportedSchema, SupplierMismatch, ProductsNotAnObject,
                                       InvalidRecord})
  {}

  /** What an accepted document amounts to. */
  function Taken(previous: Option<Json>, supplier: string): State
    requires previous.Some? ==>
               && previous.value.Object? && "products" in previous.value.fields
               && previous.value.fields["products"].Object?
  {
    match previous
    case None =>
      State(map["schema_version" := Int(1), "supplier" := Str(supplier), "last_run_id" := Null,
                "last_feed_complete" := Null], map[])
    case Some(json) =>
      var products := json.fields["products"].fields;
      State(json.fields - {"products"}, map p | p in products && products[p].Object? :: products[p].fields)
  }

  lemma TakenMeans(previous: Option<Json>, supplier: string)
    ensures var v := Validated(previous, supplier);
            && (v.Ok? <==> previous.Some? ==> Acceptable(previous.value, supplier))
            && (v.Ok? ==> v.value == Taken(previous, supplier)
                          && forall p | p in v.value.products :: GoodRecord(v.value.products[p]))
  {
    if previous.Some? {
      ValidatedMeans(previous.value, supplier);
      hide Acceptable, GoodRecord, EqualsOne;
    }
  }

  // --------------------------------------------------------------------- the decision

  /** A proposal for each missing product that has reached the threshold, in ascending order. */
  ghost predicate Proposes(d: Decision, now: State, run: RunInput, policy: Policy) {
    var allowed := run.complete && policy.action.Some? && policy.action.value != "" && policy.threshold.Some?;
    && d.complete == run.complete && d.allowed == allowed
    && (!allowed ==> d.proposed == [])
    && Ascending(d.proposed)
    && (allowed ==> forall p | p in run.missing && p in now.products ::
          (exists a :: a in d.proposed && a.product == p) <==>
            exists n | Says(now.products[p], n) :: n >= policy.threshold.value)
    && (forall a | a in d.proposed ::
          && allowed && a.product in run.missing && a.product in now.products
          && a.action == policy.action.value && a.sku == run.missing[a.product]
          && Says(now.products[a.product], a.count) && a.count >= policy.threshold.value)
  }

  ghost predicate Ascending(proposed: seq<Action>) {
    forall i, j | 0 <= i < j < |proposed| ::
      Below(proposed[i].product, proposed[j].product) && proposed[i].product != proposed[j].product
  }

  lemma {:induction false} ProposalsMean(order: seq<string>, s: State, run: RunInput, action: string, threshold: int,
                                         a: Action)
    ensures a in Proposals(order, s, run, action, threshold) <==>
              && a.product in order && a.product in run.missing && a.action == action
              && a.sku == run.missing[a.product] && a.count == MissingState.Count(s, a.product) >= threshold
  {
    if order != [] {
      ProposalsMean(order[..|order| - 1], s, run, action, threshold, a);
      assert order == order[..|order| - 1] + [order[|order| - 1]];
      hide MissingState.Count;
    }
  }

  lemma {:induction false} ProposalsInOrder(order: seq<string>, s: State, run: RunInput, action: string, threshold: int)
    requires Sorted(order, Below) && Distinct(order)
    ensures Ascending(Proposals(order, s, run, action, threshold))
  {
    if order != [] {
      var front, last := order[..|order| - 1], order[|order| - 1];
      ProposalsInOrder(front, s, run, action, threshold);
      var was := Proposals(front, s, run, action, threshold);
      hide MissingState.Count, Below;
      forall i | 0 <= i < |was| ensures Below(was[i].product, last) && was[i].product != last {
        assert was[i] in was;
        ProposalsMean(front, s, run, action, threshold, was[i]);
        var x :| 0 <= x < |front| && front[x] == was[i].product;
        assert order[x] == front[x];
      }
      var r := Proposals(order, s, run, action, threshold);
      assert r == was || (|r| == |was| + 1 && r[..|was|] == was && r[|was|].product == last);
      hide Proposals;
    }
  }

  /** The proposals, with the counts that the records hold. */
  lemma Members(d: Decision, now: State, run: RunInput, policy: Policy)
    requires Decides(d, now, run, policy) && d.allowed
    ensures Ascending(d.proposed)
    ensures forall a :: a in d.proposed <==>
                          && a.product in run.missing && a.action == policy.action.value
                          && a.sku == run.missing[a.product]
                          && a.count == MissingState.Count(now, a.product) >= policy.threshold.value
  {
    hide Proposals, Below, MissingState.Count, Ascending;
    var action, threshold := policy.action.value, policy.threshold.value;
    var order :| Lists(order, run.missing.Keys, Below) && d.proposed == Proposals(order, now, run, action, threshold);
    ProposalsInOrder(order, now, run, action, threshold);
    forall a ensures a in d.proposed <==>
                       && a.product in run.missing && a.action == action
                       && a.sku == run.missing[a.product]
                       && a.count == MissingState.Count(now, a.product) >= threshold
    {
      ProposalsMean(order, now, run, action, threshold, a);
    }
  }

  /** The decision, proposal by proposal. */
  lemma DecisionMeans(d: Decision, now: State, run: RunInput, policy: Policy)
    requires Decides(d, now, run, policy)
    requires run.complete ==> forall p | p in run.missing :: p in now.products
    requires forall p | p in now.products :: GoodRecord(now.products[p])
    ensures Proposes(d, now, run, policy)
  {
    if d.allowed {
      hide Proposals, Lists, Below, GoodRecord, Says;
      Members(d, now, run, policy);
      forall p | p in now.products ensures forall n :: Says(now.products[p], n) <==> n == MissingState.Count(now, p) {
        OldCount(now.products[p]);
        hide CountOf;
      }
      hide MissingState.Count, Decides;
      forall p | p in run.missing && p in now.products
        ensures (exists a :: a in d.proposed && a.product == p) <==>
                  exists n | Says(now.products[p], n) :: n >= policy.threshold.value
      {
        var n := MissingState.Count(now, p);
        if n >= policy.threshold.value {
          assert Action(policy.action.value, p, run.missing[p], n) in d.proposed && Says(now.products[p], n);
        }
      }
    }
  }

  lemma NextIsGood(was: State, run: RunInput)
    requires forall p | p in was.products :: GoodRecord(was.products[p])
    ensures forall p | p in Next(was, run).products :: GoodRecord(Next(was, run).products[p])
  {
    KeysDiffer();
    hide CountOf, IsCount;
    if run.complete {
      forall p | p in Records(was.products, run) ensures GoodRecord(Records(was.products, run)[p]) {
        RecordIsGood(was.products, run, p);
      }
      hide Records, GoodRecord;
    }
  }

  lemma CountsUp(record: Fields)
    requires GoodRecord(record)
    ensures CountOf(record) >= 0
  {}

  lemma RecordIsGood(was: map<string, Fields>, run: RunInput, p: string)
    requires p in Records(was, run) && (p in was ==> GoodRecord(was[p]))
    ensures GoodRecord(Records(was, run)[p])
  {
    KeysDiffer();
    if p in was { CountsUp(was[p]); }
    hide CountOf;
  }

  /** `update_missing_state`, by what it does to each key and proposes for each product. */
  method Update(previous: Previous, supplier: string, run: RunInput, policy: Policy)
      returns (r: Result<(StateDocument, Decision), Error>)
    requires previous.Sound()
    ensures r.Ok? <==>
              && supplier != "" && run.runId != "" && (policy.threshold.Some? ==> policy.threshold.value >= 1)
              && (forall p | p in run.missing :: p != "" && run.missing[p] != "")
              && (old(previous.Value()).Some? ==> Acceptable(old(previous.Value()).value, supplier))
    ensures r.Ok? ==> Updated(Taken(old(previous.Value()), supplier), run, r.value.0.Value())
    ensures r.Ok? ==> Proposes(r.value.1, r.value.0.Value(), run, policy)
  {
    ghost var given := previous.Value();
    TakenMeans(given, supplier);
    hide Validated, Acceptable, Next, Updated, Proposes, Decides, Taken, GoodRecord, StateDocument.Value;
    r := UpdateMissingState(previous, supplier, run, policy);
    if r.Ok? {
      ghost var was := Validated(given, supplier).value;
      NextMeans(was, run);
      NextIsGood(was, run);
      NextKeys(was, run);
      DecisionMeans(r.value.1, Next(was, run), run, policy);
    }
  }

  lemma NextKeys(was: State, run: RunInput)
    ensures run.complete ==> forall p | p in run.missing :: p in Next(was, run).products
  {
    RecordsKeys(was.products, run);
    hide Records;
  }
}
