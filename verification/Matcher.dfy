/** `match_supplier_items`: three identity routes over hash indices, each catalogue product
    claimed at most once, and the catalogue products that nobody claimed. */
module Matcher {
  import opened Common
  import opened Ordering
  import opened Catalogue

  // ------------------------------------------------------------- specification

  /** An index entry of one of the three routes. */
  datatype Key = SkuKey(sku: string) | EanKey(ean: string) | ModelKey(maker: string, model: string)

  predicate CatalogHas(t: Text, c: CatalogItem, k: Key) {
    match k
    case SkuKey(sku) => c.sku == sku
    case EanKey(ean) => ean != "" && t.strip(c.ean) == ean
    case ModelKey(maker, model) =>
      maker != "" && model != "" && t.identity(c.manufacturer) == maker && t.identity(c.model) == model
  }

  predicate SupplierHas(t: Text, s: SupplierItem, k: Key) {
    match k
    case SkuKey(sku) => s.sku == sku
    case EanKey(ean) => ean != "" && Truthy(s.ean) && t.strip(s.ean.value) == ean
    case ModelKey(maker, model) =>
      maker != "" && model != ""
      && t.identity(OrEmpty(s.manufacturer)) == maker && t.identity(PartNumber(s)) == model
  }

  /** The catalogue items with a key, in catalogue order. */
  function Having(t: Text, items: seq<CatalogItem>, k: Key): seq<CatalogItem> {
    if items == [] then []
    else
      var last := items[|items| - 1];
      Having(t, items[..|items| - 1], k) + (if CatalogHas(t, last, k) then [last] else [])
  }

  /** How many suppliers have a key. */
  function Bearers(t: Text, suppliers: seq<SupplierItem>, k: Key): nat {
    if suppliers == [] then 0
    else
      Bearers(t, suppliers[..|suppliers| - 1], k)
      + (if SupplierHas(t, suppliers[|suppliers| - 1], k) then 1 else 0)
  }

  datatype Reason = SkuNotUnique | EanNotUnique | ModelNotUnique

  datatype Route = BySku | ByEan | ByModel

  /** What the identity of one supplier item points at, before anything is claimed. */
  datatype Selection = Flagged | Unclear(reason: Reason) | Nothing | Pick(item: CatalogItem, route: Route)

  /** Unless the key is unique on both sides, it is unclear, or points at nothing. */
  function Unique(found: seq<CatalogItem>, bearers: nat, route: Route, reason: Reason): Selection {
    if |found| == 1 && bearers == 1 then Pick(found[0], route)
    else if found != [] then Unclear(reason)
    else Nothing
  }

  function EanKeyOf(t: Text, s: SupplierItem): Key { EanKey(t.strip(OrEmpty(s.ean))) }

  function ModelKeyOf(t: Text, s: SupplierItem): Key {
    ModelKey(t.identity(OrEmpty(s.manufacturer)), t.identity(PartNumber(s)))
  }

  function Select(t: Text, suppliers: seq<SupplierItem>, items: seq<CatalogItem>, s: SupplierItem): Selection {
    var bySku := Having(t, items, SkuKey(s.sku));
    if s.identityWarnings != [] then Flagged
    else if |bySku| > 1 then Unclear(SkuNotUnique)
    else if |bySku| == 1 then Pick(bySku[0], BySku)
    else
      var byEan :=
        if !Truthy(s.ean) then Nothing
        else
          var k := EanKeyOf(t, s);
          Unique(Having(t, items, k), Bearers(t, suppliers, k), ByEan, EanNotUnique);
      if byEan != Nothing then byEan
      else
        var k := ModelKeyOf(t, s);
        Unique(Having(t, items, k), Bearers(t, suppliers, k), ByModel, ModelNotUnique)
  }

  /** An earlier supplier points at the same product. */
  ghost predicate Claimed(t: Text, suppliers: seq<SupplierItem>, items: seq<CatalogItem>, i: nat, product: int)
    requires i <= |suppliers|
  {
    exists j | 0 <= j < i :: Points(t, suppliers, items, j, product)
  }

  predicate Points(t: Text, suppliers: seq<SupplierItem>, items: seq<CatalogItem>, j: nat, product: int)
    requires j < |suppliers|
  {
    var choice := Select(t, suppliers, items, suppliers[j]);
    choice.Pick? && choice.item.productId == product
  }

  function Dedup(s: seq<string>): seq<string> {
    if s == [] then []
    else
      var front := Dedup(s[..|s| - 1]);
      if s[|s| - 1] in s[..|s| - 1] then front else front + [s[|s| - 1]]
  }

  const EAN_MISMATCH := "ean_mismatch"
  const MODEL_MISMATCH := "model_mismatch"
  const MANUFACTURER_MISMATCH := "manufacturer_mismatch"
  const PRODUCT_REUSED := "catalog_product_reused"

  function ReasonText(reason: Reason): string {
    match reason
    case SkuNotUnique => "catalog_sku_not_unique"
    case EanNotUnique => "ean_not_unique"
    case ModelNotUnique => "manufacturer_model_not_unique"
  }

  predicate EanDiffers(t: Text, s: SupplierItem, c: CatalogItem) {
    Truthy(s.ean) && c.ean != "" && t.strip(s.ean.value) != t.strip(c.ean)
  }

  predicate ModelDiffers(t: Text, s: SupplierItem, c: CatalogItem) {
    Truthy(s.mpn) && c.model != "" && t.identity(s.mpn.value) != t.identity(c.model)
  }

  predicate ManufacturerDiffers(t: Text, s: SupplierItem, c: CatalogItem) {
    Truthy(s.manufacturer) && c.manufacturer != ""
    && t.identity(s.manufacturer.value) != t.identity(c.manufacturer)
  }

  function Warnings(t: Text, s: SupplierItem, c: CatalogItem): seq<string> {
    (if EanDiffers(t, s, c) then [EAN_MISMATCH] else [])
    + (if ModelDiffers(t, s, c) then [MODEL_MISMATCH] else [])
    + (if ManufacturerDiffers(t, s, c) then [MANUFACTURER_MISMATCH] else [])
  }

  /** The record of the supplier that claims the product. */
  function Claim(t: Text, s: SupplierItem, c: CatalogItem, route: Route): MatchRecord {
    var warnings := Warnings(t, s, c);
    var via := match route case BySku => Sku case ByEan => EanUnique case ByModel => ModelUnique;
    var conflict := match route
      case BySku => warnings != []
      case ByEan => false
      case ByModel => EAN_MISMATCH in warnings;
    var agreed := match route case BySku => 1.0 case ByEan => 0.95 case ByModel => 0.9;
    MatchRecord(s.id, s.sku, Some(c.productId),
                if conflict then Conflict else if route == BySku then Exact else HighConfidence,
                if conflict then 0.5 else agreed, via, warnings)
  }

  function Unsure(s: SupplierItem, via: MatchedBy, warnings: seq<string>): MatchRecord {
    MatchRecord(s.id, s.sku, None, Ambiguous, 0.0, via, warnings)
  }

  ghost function RecordAt(t: Text, suppliers: seq<SupplierItem>, items: seq<CatalogItem>, i: nat): MatchRecord
    requires i < |suppliers|
  {
    var s := suppliers[i];
    match Select(t, suppliers, items, s)
    case Flagged => Unsure(s, IdentityConflict, Dedup(s.identityWarnings))
    case Unclear(reason) =>
      Unsure(s, if reason == SkuNotUnique then Sku else IdentityCandidate, [ReasonText(reason)])
    case Nothing => MatchRecord(s.id, s.sku, None, Unmatched, 0.0, NoRoute, [])
    case Pick(c, route) =>
      if Claimed(t, suppliers, items, i, c.productId) then Unsure(s, ProductReused, [PRODUCT_REUSED])
      else Claim(t, s, c, route)
  }

  ghost function Unclaimed(t: Text, suppliers: seq<SupplierItem>, items: seq<CatalogItem>): set<int> {
    set c | c in items && !Claimed(t, suppliers, items, |suppliers|, c.productId) :: c.productId
  }

  /** The whole result, by scanning both lists. */
  ghost predicate IsMatching(t: Text, suppliers: seq<SupplierItem>, items: seq<CatalogItem>, r: MatchResult) {
    && |r.matches| == |suppliers|
    && (forall i | 0 <= i < |suppliers| :: r.matches[i] == RecordAt(t, suppliers, items, i))
    && Lists(r.missing, Unclaimed(t, suppliers, items), AtMost)
  }

  ghost predicate UniqueIds(suppliers: seq<SupplierItem>) {
    forall i, j | 0 <= i < j < |suppliers| :: suppliers[i].id != suppliers[j].id
  }

  ghost predicate UniqueSkus(suppliers: seq<SupplierItem>) {
    forall i, j | 0 <= i < j < |suppliers| :: suppliers[i].sku != suppliers[j].sku
  }

  ghost predicate UniqueProducts(items: seq<CatalogItem>) {
    forall i, j | 0 <= i < j < |items| :: items[i].productId != items[j].productId
  }

  // ------------------------------------------------------------------ algorithm

  datatype MatchError = SupplierIdNotUnique | SupplierSkuNotUnique | ProductIdNotUnique

  /** The index dictionaries are faithful when each maps every key to the items that have it. */
  ghost predicate Indexes<K(!new)>(t: Text, items: seq<CatalogItem>, index: map<K, seq<CatalogItem>>, key: K -> Key) {
    forall k: K :: Having(t, items, key(k)) == if k in index then index[k] else []
  }

  ghost predicate Counts<K(!new)>(t: Text, suppliers: seq<SupplierItem>, index: map<K, nat>, key: K -> Key) {
    forall k: K :: Bearers(t, suppliers, key(k)) == if k in index then index[k] else 0
  }

  function SkuOf(k: string): Key { SkuKey(k) }

  function EanOf(k: string): Key { EanKey(k) }

  function ModelOf(k: (string, string)): Key { ModelKey(k.0, k.1) }

  function Append<K>(index: map<K, seq<CatalogItem>>, k: K, c: CatalogItem): map<K, seq<CatalogItem>> {
    index[k := (if k in index then index[k] else []) + [c]]
  }

  function Tally<K>(index: map<K, nat>, k: K): map<K, nat> {
    index[k := (if k in index then index[k] else 0) + 1]
  }

  lemma IndexStep<K(!new)>(t: Text, items: seq<CatalogItem>, index: map<K, seq<CatalogItem>>, key: K -> Key,
                           k: K, c: CatalogItem)
    requires Indexes(t, items, index, key) && forall x: K :: CatalogHas(t, c, key(x)) <==> x == k
    ensures Indexes(t, items + [c], Append(index, k, c), key)
  {
    assert (items + [c])[..|items|] == items;
  }

  lemma IndexSkip<K(!new)>(t: Text, items: seq<CatalogItem>, index: map<K, seq<CatalogItem>>, key: K -> Key,
                           c: CatalogItem)
    requires Indexes(t, items, index, key) && forall x: K :: !CatalogHas(t, c, key(x))
    ensures Indexes(t, items + [c], index, key)
  {
    assert (items + [c])[..|items|] == items;
  }

  lemma NothingIndexed(t: Text)
    ensures Indexes(t, [], map[], SkuOf) && Indexes(t, [], map[], EanOf) && Indexes(t, [], map[], ModelOf)
    ensures Counts(t, [], map[], EanOf) && Counts(t, [], map[], ModelOf)
  {}

  lemma SkuIndexed(t: Text, items: seq<CatalogItem>, index: map<string, seq<CatalogItem>>, c: CatalogItem)
    requires Indexes(t, items, index, SkuOf)
    ensures Indexes(t, items + [c], Append(index, c.sku, c), SkuOf)
  {
    hide Indexes, Append;
    IndexStep(t, items, index, SkuOf, c.sku, c);
  }

  lemma EanIndexed(t: Text, items: seq<CatalogItem>, index: map<string, seq<CatalogItem>>, c: CatalogItem)
    requires Indexes(t, items, index, EanOf)
    ensures Indexes(t, items + [c], if t.strip(c.ean) != "" then Append(index, t.strip(c.ean), c) else index, EanOf)
  {
    hide Indexes, Append;
    if t.strip(c.ean) != "" {
      IndexStep(t, items, index, EanOf, t.strip(c.ean), c);
    } else {
      IndexSkip(t, items, index, EanOf, c);
    }
  }

  lemma ModelIndexed(t: Text, items: seq<CatalogItem>, index: map<(string, string), seq<CatalogItem>>, c: CatalogItem)
    requires Indexes(t, items, index, ModelOf)
    ensures var pair := (t.identity(c.manufacturer), t.identity(c.model));
            Indexes(t, items + [c], if pair.0 != "" && pair.1 != "" then Append(index, pair, c) else index, ModelOf)
  {
    hide Indexes, Append;
    var pair := (t.identity(c.manufacturer), t.identity(c.model));
    if pair.0 != "" && pair.1 != "" {
      IndexStep(t, items, index, ModelOf, pair, c);
    } else {
      IndexSkip(t, items, index, ModelOf, c);
    }
  }

  method IndexCatalog(t: Text, items: seq<CatalogItem>)
      returns (bySku: map<string, seq<CatalogItem>>, byEan: map<string, seq<CatalogItem>>,
               byModel: map<(string, string), seq<CatalogItem>>)
    ensures Indexes(t, items, bySku, SkuOf) && Indexes(t, items, byEan, EanOf) && Indexes(t, items, byModel, ModelOf)
  {
    hide Indexes, Having, CatalogHas, Append, Counts;
    NothingIndexed(t);
    bySku, byEan, byModel := map[], map[], map[];
    for i := 0 to |items|
      invariant Indexes(t, items[..i], bySku, SkuOf)
      invariant Indexes(t, items[..i], byEan, EanOf)
      invariant Indexes(t, items[..i], byModel, ModelOf)
    {
      var item := items[i];
      assert items[..i + 1] == items[..i] + [item];
      SkuIndexed(t, items[..i], bySku, item);
      bySku := Append(bySku, item.sku, item);
      EanIndexed(t, items[..i], byEan, item);
      var ean := t.strip(item.ean);
      if ean != "" {
        byEan := Append(byEan, ean, item);
      }
      ModelIndexed(t, items[..i], byModel, item);
      var pair := (t.identity(item.manufacturer), t.identity(item.model));
      if pair.0 != "" && pair.1 != "" {
        byModel := Append(byModel, pair, item);
      }
    }
    assert items[..|items|] == items;
  }

  lemma EanCounted(t: Text, suppliers: seq<SupplierItem>, counts: map<string, nat>, s: SupplierItem)
    requires Counts(t, suppliers, counts, EanOf)
    ensures Counts(t, suppliers + [s],
                   if Truthy(s.ean) && t.strip(s.ean.value) != "" then Tally(counts, t.strip(s.ean.value))
                   else counts, EanOf)
  {
    assert (suppliers + [s])[..|suppliers|] == suppliers;
  }

  lemma ModelCounted(t: Text, suppliers: seq<SupplierItem>, counts: map<(string, string), nat>, s: SupplierItem)
    requires Counts(t, suppliers, counts, ModelOf)
    ensures var pair := (t.identity(OrEmpty(s.manufacturer)), t.identity(PartNumber(s)));
            Counts(t, suppliers + [s], if pair.0 != "" && pair.1 != "" then Tally(counts, pair) else counts, ModelOf)
  {
    assert (suppliers + [s])[..|suppliers|] == suppliers;
  }

  method CountSuppliers(t: Text, suppliers: seq<SupplierItem>)
      returns (eans: map<string, nat>, models: map<(string, string), nat>)
    ensures Counts(t, suppliers, eans, EanOf) && Counts(t, suppliers, models, ModelOf)
  {
    hide Counts, Bearers, SupplierHas, Tally, Indexes;
    NothingIndexed(t);
    eans, models := map[], map[];
    for i := 0 to |suppliers|
      invariant Counts(t, suppliers[..i], eans, EanOf) && Counts(t, suppliers[..i], models, ModelOf)
    {
      var s := suppliers[i];
      assert suppliers[..i + 1] == suppliers[..i] + [s];
      EanCounted(t, suppliers[..i], eans, s);
      if Truthy(s.ean) && t.strip(s.ean.value) != "" {
        eans := Tally(eans, t.strip(s.ean.value));
      }
      ModelCounted(t, suppliers[..i], models, s);
      var pair := (t.identity(OrEmpty(s.manufacturer)), t.identity(PartNumber(s)));
      if pair.0 != "" && pair.1 != "" {
        models := Tally(models, pair);
      }
    }
    assert suppliers[..|suppliers|] == suppliers;
  }

  function Lookup<K>(index: map<K, seq<CatalogItem>>, k: K): seq<CatalogItem> {
    if k in index then index[k] else []
  }

  /** The selection of one supplier, as the loop body computes it from the indices. */
  method SelectByIndex(t: Text, ghost suppliers: seq<SupplierItem>, ghost items: seq<CatalogItem>, s: SupplierItem,
                       bySku: map<string, seq<CatalogItem>>, byEan: map<string, seq<CatalogItem>>,
                       byModel: map<(string, string), seq<CatalogItem>>,
                       eans: map<string, nat>, models: map<(string, string), nat>)
      returns (choice: Selection)
    requires Indexes(t, items, bySku, SkuOf) && Indexes(t, items, byEan, EanOf) && Indexes(t, items, byModel, ModelOf)
    requires Counts(t, suppliers, eans, EanOf) && Counts(t, suppliers, models, ModelOf)
    ensures choice == Select(t, suppliers, items, s)
  {
    if s.identityWarnings != [] { return Flagged; }
    var candidates := Lookup(bySku, s.sku);
    assert candidates == Having(t, items, SkuOf(s.sku));
    if |candidates| == 1 { return Pick(candidates[0], BySku); }
    if |candidates| > 1 { return Unclear(SkuNotUnique); }
    if Truthy(s.ean) {
      var ean := t.strip(s.ean.value);
      candidates := Lookup(byEan, ean);
      assert candidates == Having(t, items, EanOf(ean));
      assert Bearers(t, suppliers, EanOf(ean)) == if ean in eans then eans[ean] else 0;
      if |candidates| == 1 && ean in eans && eans[ean] == 1 { return Pick(candidates[0], ByEan); }
      if candidates != [] { return Unclear(EanNotUnique); }
    }
    var pair := (t.identity(OrEmpty(s.manufacturer)), t.identity(PartNumber(s)));
    candidates := if pair.0 != "" && pair.1 != "" then Lookup(byModel, pair) else [];
    BlankModelFindsNothing(t, items, ModelOf(pair));
    assert candidates == Having(t, items, ModelOf(pair));
    assert Bearers(t, suppliers, ModelOf(pair)) == if pair in models then models[pair] else 0;
    if |candidates| == 1 && pair in models && models[pair] == 1 { return Pick(candidates[0], ByModel); }
    if candidates != [] { return Unclear(ModelNotUnique); }
    return Nothing;
  }

  lemma {:induction false} BlankModelFindsNothing(t: Text, items: seq<CatalogItem>, k: Key)
    requires k.ModelKey?
    ensures k.maker == "" || k.model == "" ==> Having(t, items, k) == []
  {
    if items != [] { BlankModelFindsNothing(t, items[..|items| - 1], k); }
  }

  /** `len(column) == len(set(column))`. */
  method AllDistinct<T(==)>(column: seq<T>) returns (distinct: bool)
    ensures distinct <==> Distinct(column)
  {
    CardinalityOfElements(column);
    distinct := |set x | x in column| == |column|;
  }

  function IdColumn(suppliers: seq<SupplierItem>): seq<string> {
    seq(|suppliers|, i requires 0 <= i < |suppliers| => suppliers[i].id)
  }

  function SkuColumn(suppliers: seq<SupplierItem>): seq<string> {
    seq(|suppliers|, i requires 0 <= i < |suppliers| => suppliers[i].sku)
  }

  function ProductColumn(items: seq<CatalogItem>): seq<int> {
    seq(|items|, i requires 0 <= i < |items| => items[i].productId)
  }

  lemma ColumnsMean(suppliers: seq<SupplierItem>, items: seq<CatalogItem>)
    ensures Distinct(IdColumn(suppliers)) <==> UniqueIds(suppliers)
    ensures Distinct(SkuColumn(suppliers)) <==> UniqueSkus(suppliers)
    ensures Distinct(ProductColumn(items)) <==> UniqueProducts(items)
  {
    assert forall i | 0 <= i < |suppliers| ::
        IdColumn(suppliers)[i] == suppliers[i].id && SkuColumn(suppliers)[i] == suppliers[i].sku;
    assert forall i | 0 <= i < |items| :: ProductColumn(items)[i] == items[i].productId;
  }

  /** The three guards at the head of `match_supplier_items`, in order. */
  method CheckUnique(suppliers: seq<SupplierItem>, items: seq<CatalogItem>) returns (error: Option<MatchError>)
    ensures error == if !UniqueIds(suppliers) then Some(SupplierIdNotUnique)
                     else if !UniqueSkus(suppliers) then Some(SupplierSkuNotUnique)
                     else if !UniqueProducts(items) then Some(ProductIdNotUnique)
                     else None
  {
    ColumnsMean(suppliers, items);
    hide UniqueIds, UniqueSkus, UniqueProducts, Distinct, IdColumn, SkuColumn, ProductColumn;
    var ids := AllDistinct(IdColumn(suppliers));
    if !ids { return Some(SupplierIdNotUnique); }
    var skus := AllDistinct(SkuColumn(suppliers));
    if !skus { return Some(SupplierSkuNotUnique); }
    var products := AllDistinct(ProductColumn(items));
    if !products { return Some(ProductIdNotUnique); }
    return None;
  }

  /** `match_supplier_items`. */
  method MatchSupplierItems(t: Text, suppliers: seq<SupplierItem>, items: seq<CatalogItem>)
      returns (r: Result<MatchResult, MatchError>)
    ensures r.Ok? <==> UniqueIds(suppliers) && UniqueSkus(suppliers) && UniqueProducts(items)
    ensures r.Ok? ==> IsMatching(t, suppliers, items, r.value)
    ensures !UniqueIds(suppliers) ==> r == Err(SupplierIdNotUnique)
    ensures UniqueIds(suppliers) && !UniqueSkus(suppliers) ==> r == Err(SupplierSkuNotUnique)
  {
    var error := CheckUnique(suppliers, items);
    if error.Some? { return Err(error.value); }
    var bySku, byEan, byModel := IndexCatalog(t, items);
    var eans, models := CountSuppliers(t, suppliers);
    var seen: set<int>, matches: seq<MatchRecord> := {}, [];
    hide Indexes, Counts, Select, Points, UniqueIds, UniqueSkus, UniqueProducts, Claimed;
    NothingClaimed(t, suppliers, items);
    for i := 0 to |suppliers|
      invariant |matches| == i
      invariant forall j | 0 <= j < i :: matches[j] == RecordAt(t, suppliers, items, j)
      invariant forall p :: p in seen <==> Claimed(t, suppliers, items, i, p)
    {
      var s := suppliers[i];
      var choice := SelectByIndex(t, suppliers, items, s, bySku, byEan, byModel, eans, models);
      ClaimedNext(t, suppliers, items, i);
      var record: MatchRecord;
      match choice {
        case Flagged => record := Unsure(s, IdentityConflict, Dedup(s.identityWarnings));
        case Unclear(reason) =>
          record := Unsure(s, if reason == SkuNotUnique then Sku else IdentityCandidate, [ReasonText(reason)]);
        case Nothing => record := MatchRecord(s.id, s.sku, None, Unmatched, 0.0, NoRoute, []);
        case Pick(c, route) =>
          if c.productId in seen {
            record := Unsure(s, ProductReused, [PRODUCT_REUSED]);
          } else {
            seen := seen + {c.productId};
            record := Claim(t, s, c, route);
          }
      }
      matches := matches + [record];
    }
    var missing := Unseen(items, seen);
    assert (set c | c in items && c.productId !in seen :: c.productId) == Unclaimed(t, suppliers, items);
    r := Ok(MatchResult(matches, missing));
  }

  lemma NothingClaimed(t: Text, suppliers: seq<SupplierItem>, items: seq<CatalogItem>)
    ensures forall p :: !Claimed(t, suppliers, items, 0, p)
  {}

  lemma ClaimedNext(t: Text, suppliers: seq<SupplierItem>, items: seq<CatalogItem>, i: nat)
    requires i < |suppliers|
    ensures var choice := Select(t, suppliers, items, suppliers[i]);
            forall p :: Claimed(t, suppliers, items, i + 1, p) <==>
                          Claimed(t, suppliers, items, i, p) || (choice.Pick? && choice.item.productId == p)
  {
    var choice := Select(t, suppliers, items, suppliers[i]);
    if choice.Pick? {
      assert Points(t, suppliers, items, i, choice.item.productId);
      assert Claimed(t, suppliers, items, i + 1, choice.item.productId);
    }
    hide Select;
  }

  /** `sorted(item.product_id for item in catalog if not seen)`. */
  method Unseen(items: seq<CatalogItem>, seen: set<int>) returns (missing: seq<int>)
    requires UniqueProducts(items)
    ensures Lists(missing, set c | c in items && c.productId !in seen :: c.productId, AtMost)
  {
    var ids: seq<int> := [];
    for i := 0 to |items|
      invariant forall p :: p in ids <==> exists j | 0 <= j < i :: items[j].productId == p && p !in seen
      invariant Distinct(ids)
    {
      if items[i].productId !in seen {
        ids := ids + [items[i].productId];
      }
    }
    missing := Sort(ids, AtMost);
    SortSorted(ids, AtMost);
    SortElements(ids, AtMost);
    DistinctIsMultiset(ids);
    DistinctIsMultiset(missing);
    forall p ensures p in missing <==> p in (set c | c in items && c.productId !in seen :: c.productId) {
      assert p in missing <==> p in multiset(missing);
      assert p in ids <==> p in multiset(ids);
    }
  }
}
