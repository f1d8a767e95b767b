/** What a pilot run accepts: the catalogue table (`_load_catalog`) and the adapter's snapshot
    (`_validate_adapter_snapshot`). */
module RunInputs {
  import opened Common
  import opened Ordering
  import opened Catalogue
  import Matcher

  predicate StartsWith(s: string, prefix: string) { prefix <= s }

  // ------------------------------------------------------------- the catalogue

  datatype Number = Finite(value: real) | NotFinite

  /** Python's `int` and `Decimal` on text; `None` stands for the exception. */
  datatype Parsers = Parsers(text: Text, integer: string -> Option<int>, decimal: string -> Option<Number>)

  /** What the CSV reader delivers: the header record and the records after it. */
  datatype Table = Table(headers: seq<string>, rows: seq<seq<string>>)

  const REQUIRED := {"product_id", "model", "sku", "ean", "name", "manufacturer", "price", "quantity", "status",
                     "category_ids", "categories"}

  datatype LoadError =
    | NoHeader | EmptyHeader | DuplicateHeader | MissingHeader | PaddedHeader
    | ExtraFields | MissingFields | InvalidProductId | NonPositiveProductId | DuplicateProductId
    | NoSku | InvalidPrice | BadPrice | InvalidQuantityOrStatus | NegativeQuantity

  ghost predicate GoodHeaders(p: Parsers, headers: seq<string>) {
    && headers != [] && Distinct(headers)
    && (forall i | 0 <= i < |headers| :: p.text.strip(headers[i]) == headers[i] != "")
    && (forall name | name in REQUIRED :: name in headers)
  }

  function Cell(headers: seq<string>, row: seq<string>, name: string): string
    requires |row| == |headers|
  {
    if headers == [] then "" else if headers[0] == name then row[0] else Cell(headers[1..], row[1..], name)
  }

  function Stripped(p: Parsers, headers: seq<string>, row: seq<string>, name: string): string
    requires |row| == |headers|
  {
    p.text.strip(Cell(headers, row, name))
  }

  /** An empty cell counts as zero. */
  function OrZero(p: Parsers, headers: seq<string>, row: seq<string>, name: string): string
    requires |row| == |headers|
  {
    var cell := Cell(headers, row, name);
    p.text.strip(if cell == "" then "0" else cell)
  }

  function ProductId(p: Parsers, headers: seq<string>, row: seq<string>): Option<int> {
    if |row| != |headers| then None else p.integer(Stripped(p, headers, row, "product_id"))
  }

  predicate GoodRow(p: Parsers, headers: seq<string>, row: seq<string>) {
    && |row| == |headers|
    && ProductId(p, headers, row).Some? && ProductId(p, headers, row).value > 0
    && Stripped(p, headers, row, "sku") != ""
    && (var price := p.decimal(OrZero(p, headers, row, "price"));
        price.Some? && price.value.Finite? && price.value.value >= 0.0)
    && (var quantity := p.integer(OrZero(p, headers, row, "quantity")); quantity.Some? && quantity.value >= 0)
    && p.integer(OrZero(p, headers, row, "status")).Some?
  }

  predicate GoodRows(p: Parsers, headers: seq<string>, rows: seq<seq<string>>) {
    forall i | 0 <= i < |rows| && rows[i] != [] :: GoodRow(p, headers, rows[i])
  }

  function Ids(p: Parsers, headers: seq<string>, rows: seq<seq<string>>): seq<int> {
    if rows == [] then []
    else
      var id := ProductId(p, headers, rows[|rows| - 1]);
      Ids(p, headers, rows[..|rows| - 1]) + (if rows[|rows| - 1] != [] && id.Some? then [id.value] else [])
  }

  /** Records without any field are skipped by the reader. */
  ghost predicate Accepts(p: Parsers, table: Table) {
    && GoodHeaders(p, table.headers)
    && GoodRows(p, table.headers, table.rows) && Distinct(Ids(p, table.headers, table.rows))
  }

  function Normalized(p: Parsers, headers: seq<string>): seq<string> {
    seq(|headers|, i requires 0 <= i < |headers| => p.text.strip(headers[i]))
  }

  /** The fault of the header record that an error names. */
  ghost predicate HeaderFault(p: Parsers, headers: seq<string>, e: LoadError) {
    match e
    case NoHeader => headers == []
    case EmptyHeader => "" in Normalized(p, headers)
    case DuplicateHeader => !Distinct(Normalized(p, headers))
    case MissingHeader => exists name | name in REQUIRED :: name !in Normalized(p, headers)
    case PaddedHeader => Normalized(p, headers) != headers
    case _ => false
  }

  /** The fault of a record that an error names. */
  predicate RowFault(p: Parsers, headers: seq<string>, row: seq<string>, seen: set<int>, e: LoadError) {
    match e
    case ExtraFields => |row| > |headers|
    case MissingFields => |row| < |headers|
    case InvalidProductId => |row| == |headers| && ProductId(p, headers, row).None?
    case NonPositiveProductId => ProductId(p, headers, row).Some? && ProductId(p, headers, row).value <= 0
    case DuplicateProductId => ProductId(p, headers, row).Some? && ProductId(p, headers, row).value in seen
    case NoSku => |row| == |headers| && Stripped(p, headers, row, "sku") == ""
    case InvalidPrice => |row| == |headers| && p.decimal(OrZero(p, headers, row, "price")).None?
    case BadPrice =>
      |row| == |headers|
      && (var price := p.decimal(OrZero(p, headers, row, "price"));
          price.Some? && (price.value.NotFinite? || price.value.value < 0.0))
    case InvalidQuantityOrStatus =>
      |row| == |headers|
      && (p.integer(OrZero(p, headers, row, "quantity")).None? || p.integer(OrZero(p, headers, row, "status")).None?)
    case NegativeQuantity =>
      |row| == |headers|
      && (var quantity := p.integer(OrZero(p, headers, row, "quantity")); quantity.Some? && quantity.value < 0)
    case _ => false
  }

  /** The error is about record `i`, and all is well before it. */
  ghost predicate Blames(p: Parsers, table: Table, i: nat, e: LoadError) {
    && GoodHeaders(p, table.headers) && i < |table.rows| && table.rows[i] != []
    && GoodRows(p, table.headers, table.rows[..i]) && Distinct(Ids(p, table.headers, table.rows[..i]))
    && RowFault(p, table.headers, table.rows[i], Elements(Ids(p, table.headers, table.rows[..i])), e)
  }

  function ItemOf(p: Parsers, headers: seq<string>, row: seq<string>): CatalogItem
    requires GoodRow(p, headers, row)
  {
    CatalogItem(ProductId(p, headers, row).value, Stripped(p, headers, row, "sku"), Stripped(p, headers, row, "model"),
                Stripped(p, headers, row, "ean"), Stripped(p, headers, row, "manufacturer"),
                p.decimal(OrZero(p, headers, row, "price")).value.value,
                (Stripped(p, headers, row, "category_ids"), Stripped(p, headers, row, "categories")))
  }

  function Items(p: Parsers, headers: seq<string>, rows: seq<seq<string>>, prefix: string): seq<CatalogItem>
    requires GoodRows(p, headers, rows)
  {
    if rows == [] then []
    else
      var front, last := Items(p, headers, rows[..|rows| - 1], prefix), rows[|rows| - 1];
      if last == [] then front
      else if StartsWith(Stripped(p, headers, last, "sku"), prefix) then front + [ItemOf(p, headers, last)]
      else front
  }

  lemma GoodIffNormalized(p: Parsers, headers: seq<string>)
    ensures GoodHeaders(p, headers) <==>
              headers != [] && Normalized(p, headers) == headers && Distinct(headers) && "" !in headers
              && forall name | name in REQUIRED :: name in headers
  {
    hide Distinct;
    var normalized := Normalized(p, headers);
    if normalized == headers {
      assert forall i | 0 <= i < |headers| :: p.text.strip(headers[i]) == normalized[i];
    }
  }

  /** The checks on the header record, in order. */
  method CheckHeaders(p: Parsers, headers: seq<string>) returns (error: Option<LoadError>)
    ensures error.None? <==> GoodHeaders(p, headers)
    ensures error.Some? ==> HeaderFault(p, headers, error.value)
  {
    if headers == [] { return Some(NoHeader); }
    var normalized := Normalized(p, headers);
    GoodIffNormalized(p, headers);
    hide GoodHeaders, Normalized, Distinct;
    if "" in normalized { return Some(EmptyHeader); }
    CardinalityOfElements(normalized);
    if |set h | h in normalized| != |normalized| { return Some(DuplicateHeader); }
    if exists name | name in REQUIRED :: name !in normalized { return Some(MissingHeader); }
    if normalized != headers { return Some(PaddedHeader); }
    return None;
  }

  lemma RowStep(p: Parsers, headers: seq<string>, rows: seq<seq<string>>, i: nat, prefix: string)
    requires i < |rows| && GoodRows(p, headers, rows[..i])
    ensures var row := rows[i];
            && (row == [] ==> GoodRows(p, headers, rows[..i + 1])
                              && Ids(p, headers, rows[..i + 1]) == Ids(p, headers, rows[..i])
                              && Items(p, headers, rows[..i + 1], prefix) == Items(p, headers, rows[..i], prefix))
            && (row != [] ==> (GoodRows(p, headers, rows[..i + 1]) <==> GoodRow(p, headers, row)))
            && (row != [] && ProductId(p, headers, row).Some? ==>
                  Ids(p, headers, rows[..i + 1]) == Ids(p, headers, rows[..i]) + [ProductId(p, headers, row).value])
            && (row != [] && GoodRow(p, headers, row) ==>
                  Items(p, headers, rows[..i + 1], prefix)
                  == if StartsWith(Stripped(p, headers, row, "sku"), prefix)
                     then Items(p, headers, rows[..i], prefix) + [ItemOf(p, headers, row)]
                     else Items(p, headers, rows[..i], prefix))
  {
    assert rows[..i + 1][..i] == rows[..i];
    assert forall j | 0 <= j < i :: rows[..i][j] == rows[..i + 1][j];
    assert rows[..i + 1][i] == rows[i];
    hide GoodRow, ProductId, Stripped;
  }

  lemma {:induction false} IdsConcat(p: Parsers, headers: seq<string>, a: seq<seq<string>>, b: seq<seq<string>>)
    ensures Ids(p, headers, a + b) == Ids(p, headers, a) + Ids(p, headers, b)
  {
    if b == [] {
      assert a + b == a;
    } else {
      IdsConcat(p, headers, a, b[..|b| - 1]);
      assert (a + b)[..|a + b| - 1] == a + b[..|b| - 1];
      assert (a + b)[|a + b| - 1] == b[|b| - 1];
      hide ProductId;
    }
  }

  /** What an earlier row spoils, no later row repairs. */
  lemma PrefixFails(p: Parsers, headers: seq<string>, rows: seq<seq<string>>, i: nat)
    requires i <= |rows|
    requires !GoodRows(p, headers, rows[..i]) || !Distinct(Ids(p, headers, rows[..i]))
    ensures !Accepts(p, Table(headers, rows))
  {
    IdsConcat(p, headers, rows[..i], rows[i..]);
    assert rows == rows[..i] + rows[i..];
    assert forall j | 0 <= j < i :: rows[..i][j] == rows[j];
    if Accepts(p, Table(headers, rows)) {
      DistinctPrefix(Ids(p, headers, rows[..i]), Ids(p, headers, rows[i..]));
    }
    hide GoodRow, Ids, Distinct;
  }

  /** The body of the loop up to the prefix test, in the order of the checks. */
  method CheckRow(p: Parsers, headers: seq<string>, row: seq<string>, seen: set<int>) returns (error: Option<LoadError>)
    ensures error.None? <==> GoodRow(p, headers, row) && ProductId(p, headers, row).value !in seen
    ensures GoodRow(p, headers, row) ==> error.None? || error == Some(DuplicateProductId)
    ensures error.Some? ==> RowFault(p, headers, row, seen, error.value)
  {
    if |row| > |headers| { return Some(ExtraFields); }
    if |row| < |headers| { return Some(MissingFields); }
    var id := ProductId(p, headers, row);
    if id.None? { return Some(InvalidProductId); }
    if id.value <= 0 { return Some(NonPositiveProductId); }
    if id.value in seen { return Some(DuplicateProductId); }
    if Stripped(p, headers, row, "sku") == "" { return Some(NoSku); }
    var price := p.decimal(OrZero(p, headers, row, "price"));
    if price.None? { return Some(InvalidPrice); }
    if price.value.NotFinite? || price.value.value < 0.0 { return Some(BadPrice); }
    var quantity, status := p.integer(OrZero(p, headers, row, "quantity")),
        p.integer(OrZero(p, headers, row, "status"));
    if quantity.None? || status.None? { return Some(InvalidQuantityOrStatus); }
    if quantity.value < 0 { return Some(NegativeQuantity); }
    return None;
  }

  /** `_load_catalog`, from the parsed table on. */
  method LoadCatalog(p: Parsers, table: Table, prefix: string) returns (r: Result<seq<CatalogItem>, LoadError>)
    ensures r.Ok? <==> Accepts(p, table)
    ensures r.Ok? ==> r.value == Items(p, table.headers, table.rows, prefix)
    ensures r.Err? ==> HeaderFault(p, table.headers, r.error) || exists i: nat :: Blames(p, table, i, r.error)
  {
    var error := CheckHeaders(p, table.headers);
    if error.Some? { return Err(error.value); }
    var headers, rows := table.headers, table.rows;
    var seen: set<int>, result: seq<CatalogItem> := {}, [];
    hide GoodHeaders, HeaderFault, RowFault, Distinct, Elements, GoodRow;
    NothingSeen();
    for i := 0 to |rows|
      invariant GoodRows(p, headers, rows[..i]) && Distinct(Ids(p, headers, rows[..i]))
      invariant seen == Elements(Ids(p, headers, rows[..i]))
      invariant result == Items(p, headers, rows[..i], prefix)
    {
      hide GoodRows, Ids, Items;
      var row := rows[i];
      RowStep(p, headers, rows, i, prefix);
      if row == [] { continue; }
      error := CheckRow(p, headers, row, seen);
      var id := ProductId(p, headers, row);
      if id.Some? { NextElement(Ids(p, headers, rows[..i]), id.value); }
      if error.Some? {
        PrefixFails(p, headers, rows, i + 1);
        assert Blames(p, table, i, error.value);
        return Err(error.value);
      }
      ProductIdOfGoodRow(p, headers, row);
      seen := seen + {id.value};
      if !StartsWith(Stripped(p, headers, row, "sku"), prefix) { continue; }
      result := result + [ItemOf(p, headers, row)];
    }
    assert rows[..|rows|] == rows;
    return Ok(result);
  }

  lemma NothingSeen()
    ensures Elements<int>([]) == {} && Distinct<int>([])
  {}

  lemma ProductIdOfGoodRow(p: Parsers, headers: seq<string>, row: seq<string>)
    requires GoodRow(p, headers, row)
    ensures |row| == |headers| && ProductId(p, headers, row).Some?
  {}

  /** The catalogue that a run goes on with. */
  ghost predicate GoodCatalogue(items: seq<CatalogItem>, prefix: string) {
    Matcher.UniqueProducts(items) && forall i | 0 <= i < |items| :: GoodEntry(items[i], prefix)
  }

  lemma {:induction false} ItemsAreRows(p: Parsers, headers: seq<string>, rows: seq<seq<string>>, prefix: string,
                                        k: nat)
      returns (i: nat)
    requires GoodRows(p, headers, rows)
    requires k < |Items(p, headers, rows, prefix)|
    ensures i < |rows| && rows[i] != [] && Items(p, headers, rows, prefix)[k] == ItemOf(p, headers, rows[i])
    ensures StartsWith(Stripped(p, headers, rows[i], "sku"), prefix)
  {
    var front := rows[..|rows| - 1];
    hide GoodRow, Stripped;
    if k < |Items(p, headers, front, prefix)| {
      i := ItemsAreRows(p, headers, front, prefix, k);
    } else {
      i := |rows| - 1;
    }
  }

  lemma {:induction false} CellAt(headers: seq<string>, row: seq<string>, h: nat)
    requires |row| == |headers| && Distinct(headers) && h < |headers|
    ensures Cell(headers, row, headers[h]) == row[h]
  {
    if h > 0 {
      assert headers[0] != headers[h];
      assert forall i | 0 <= i < |headers[1..]| :: headers[1..][i] == headers[i + 1];
      CellAt(headers[1..], row[1..], h - 1);
    }
  }

  /** An item is what its row says under the headers, wherever the columns stand. */
  ghost predicate ReadOff(p: Parsers, headers: seq<string>, row: seq<string>, c: CatalogItem)
    requires |row| == |headers|
  {
    forall h | 0 <= h < |headers| ::
      var text := p.text.strip(row[h]);
      && (headers[h] == "product_id" ==> p.integer(text) == Some(c.productId))
      && (headers[h] == "sku" ==> c.sku == text) && (headers[h] == "model" ==> c.model == text)
      && (headers[h] == "ean" ==> c.ean == text) && (headers[h] == "manufacturer" ==> c.manufacturer == text)
      && (headers[h] == "category_ids" ==> c.category.0 == text)
      && (headers[h] == "categories" ==> c.category.1 == text)
      && (headers[h] == "price" ==>
          p.decimal(p.text.strip(if row[h] == "" then "0" else row[h])) == Some(Finite(c.price)))
  }

  /** Every loaded item is read off a row of the table. */
  lemma ItemsAreReadOff(p: Parsers, table: Table, prefix: string, k: nat) returns (i: nat)
    requires Accepts(p, table) && k < |Items(p, table.headers, table.rows, prefix)|
    ensures i < |table.rows| && |table.rows[i]| == |table.headers|
    ensures ReadOff(p, table.headers, table.rows[i], Items(p, table.headers, table.rows, prefix)[k])
  {
    i := ItemsAreRows(p, table.headers, table.rows, prefix, k);
    hide Items, Ids, Distinct;
    ReadOffRow(p, table.headers, table.rows[i]);
  }

  lemma ReadOffRow(p: Parsers, headers: seq<string>, row: seq<string>)
    requires Distinct(headers) && GoodRow(p, headers, row)
    ensures ReadOff(p, headers, row, ItemOf(p, headers, row))
  {
    forall h | 0 <= h < |headers| ensures Cell(headers, row, headers[h]) == row[h] {
      CellAt(headers, row, h);
    }
    hide Cell, Distinct;
  }

  predicate GoodEntry(c: CatalogItem, prefix: string) {
    c.productId > 0 && c.sku != "" && StartsWith(c.sku, prefix) && c.price >= 0.0
  }

  lemma EntryOfGoodRow(p: Parsers, headers: seq<string>, row: seq<string>, prefix: string)
    requires GoodRow(p, headers, row) && StartsWith(Stripped(p, headers, row, "sku"), prefix)
    ensures GoodEntry(ItemOf(p, headers, row), prefix)
    ensures ItemOf(p, headers, row).productId == ProductId(p, headers, row).value
  {}

  lemma CatalogueGrows(items: seq<CatalogItem>, c: CatalogItem, prefix: string, ids: set<int>)
    requires GoodCatalogue(items, prefix) && GoodEntry(c, prefix)
    requires (forall k | 0 <= k < |items| :: items[k].productId in ids) && c.productId !in ids
    ensures GoodCatalogue(items + [c], prefix)
  {}

  /** Whatever is loaded satisfies what the matcher and the pricing rely on. */
  lemma {:induction false} LoadedCatalogueIsGood(p: Parsers, headers: seq<string>, rows: seq<seq<string>>,
                                                 prefix: string)
    requires GoodRows(p, headers, rows) && Distinct(Ids(p, headers, rows))
    ensures GoodCatalogue(Items(p, headers, rows, prefix), prefix)
    ensures var items := Items(p, headers, rows, prefix);
            forall k | 0 <= k < |items| :: items[k].productId in Elements(Ids(p, headers, rows))
  {
    if rows != [] {
      var front, last := rows[..|rows| - 1], rows[|rows| - 1];
      assert forall i | 0 <= i < |front| :: front[i] == rows[i];
      RowStep(p, headers, rows, |rows| - 1, prefix);
      assert rows[..|rows|] == rows;
      if last != [] {
        assert GoodRow(p, headers, last);
        ProductIdOfGoodRow(p, headers, last);
        NextElement(Ids(p, headers, front), ProductId(p, headers, last).value);
      }
      hide Ids, Items, Distinct, Elements, GoodRows, GoodRow, Stripped, ProductId, ItemOf, GoodCatalogue, GoodEntry,
           StartsWith;
      LoadedCatalogueIsGood(p, headers, front, prefix);
      if last != [] && StartsWith(Stripped(p, headers, last, "sku"), prefix) {
        EntryOfGoodRow(p, headers, last, prefix);
        CatalogueGrows(Items(p, headers, front, prefix), ItemOf(p, headers, last), prefix,
            Elements(Ids(p, headers, front)));
      }
    }
  }

  function WithPrefix(items: seq<CatalogItem>, prefix: string): seq<CatalogItem> {
    if items == [] then []
    else
      WithPrefix(items[..|items| - 1], prefix)
      + (if StartsWith(items[|items| - 1].sku, prefix) then [items[|items| - 1]] else [])
  }

  /** The prefix only selects: rows outside it are validated like the others, and dropped. */
  lemma {:induction false} PrefixOnlySelects(p: Parsers, headers: seq<string>, rows: seq<seq<string>>, prefix: string)
    requires GoodRows(p, headers, rows)
    ensures Items(p, headers, rows, prefix) == WithPrefix(Items(p, headers, rows, ""), prefix)
    ensures |Items(p, headers, rows, "")| == Count(rows, HasFields)
  {
    if rows != [] {
      var front, last := rows[..|rows| - 1], rows[|rows| - 1];
      assert rows == front + [last];
      CountConcat(front, [last], HasFields);
      PrefixOnlySelects(p, headers, front, prefix);
      if last != [] {
        var all := Items(p, headers, front, "");
        assert (all + [ItemOf(p, headers, last)])[..|all|] == all;
      }
      hide GoodRow;
    }
  }

  predicate HasFields(row: seq<string>) { row != [] }

  // -------------------------------------------------------------- the snapshot

  datatype SnapshotItem = SnapshotItem(supplier: string, item: SupplierItem, name: string, rawHash: string)

  datatype Snapshot = Snapshot(sourceHash: Digest, currencies: map<string, real>, items: seq<SnapshotItem>)

  datatype Adapter = Adapter(supplier: string, prefix: string, minItems: int, maxItems: int)

  datatype SnapshotError =
    | HashMismatch | OutsideBounds | NoItems | WrongSupplier | IdNotUnique | WrongPrefix | SkuNotUnique
    | UndeclaredCurrency | NoName | BadRawHash

  predicate LowerHex(h: string) { |h| == 64 && forall i | 0 <= i < 64 :: '0' <= h[i] <= '9' || 'a' <= h[i] <= 'f' }

  function Suppliers(items: seq<SnapshotItem>): seq<SupplierItem> {
    seq(|items|, i requires 0 <= i < |items| => items[i].item)
  }

  predicate GoodItem(t: Text, adapter: Adapter, currencies: map<string, real>, s: SnapshotItem) {
    && s.supplier == adapter.supplier && s.item.id != "" && StartsWith(s.item.sku, adapter.prefix)
    && s.item.currency in currencies && t.strip(s.name) != "" && LowerHex(s.rawHash)
  }

  /** The fault of an item that an error names. */
  predicate ItemFault(t: Text, adapter: Adapter, currencies: map<string, real>, s: SnapshotItem, seenIds: set<string>,
                      seenSkus: set<string>, e: SnapshotError) {
    match e
    case WrongSupplier => s.supplier != adapter.supplier
    case IdNotUnique => s.item.id == "" || s.item.id in seenIds
    case WrongPrefix => !StartsWith(s.item.sku, adapter.prefix)
    case SkuNotUnique => s.item.sku in seenSkus
    case UndeclaredCurrency => s.item.currency !in currencies
    case NoName => t.strip(s.name) == ""
    case BadRawHash => !LowerHex(s.rawHash)
    case _ => false
  }

  /** The error is about item `i`, and all is well before it. */
  ghost predicate BlamesItem(t: Text, adapter: Adapter, currencies: map<string, real>, items: seq<SnapshotItem>, i: nat,
                             e: SnapshotError) {
    && i < |items| && (forall j | 0 <= j < i :: GoodItem(t, adapter, currencies, items[j]))
    && Distinct(ItemIds(items[..i])) && Distinct(ItemSkus(items[..i]))
    && ItemFault(t, adapter, currencies, items[i], Elements(ItemIds(items[..i])), Elements(ItemSkus(items[..i])), e)
  }

  ghost predicate AcceptsSnapshot(t: Text, adapter: Adapter, source: Digest, s: Snapshot) {
    && s.sourceHash == source && s.items != [] && adapter.minItems <= |s.items| <= adapter.maxItems
    && (forall i | 0 <= i < |s.items| :: GoodItem(t, adapter, s.currencies, s.items[i]))
    && Matcher.UniqueIds(Suppliers(s.items)) && Matcher.UniqueSkus(Suppliers(s.items))
  }

  function ItemIds(items: seq<SnapshotItem>): seq<string> {
    seq(|items|, i requires 0 <= i < |items| => items[i].item.id)
  }

  function ItemSkus(items: seq<SnapshotItem>): seq<string> {
    seq(|items|, i requires 0 <= i < |items| => items[i].item.sku)
  }

  lemma UniqueMeansDistinct(items: seq<SnapshotItem>)
    ensures Matcher.UniqueIds(Suppliers(items)) <==> Distinct(ItemIds(items))
    ensures Matcher.UniqueSkus(Suppliers(items)) <==> Distinct(ItemSkus(items))
  {
    assert forall i | 0 <= i < |items| ::
        Suppliers(items)[i].id == ItemIds(items)[i] && Suppliers(items)[i].sku == ItemSkus(items)[i];
  }

  lemma ItemStep(items: seq<SnapshotItem>, i: nat)
    requires i < |items|
    ensures ItemIds(items[..i + 1]) == ItemIds(items[..i]) + [items[i].item.id]
    ensures ItemSkus(items[..i + 1]) == ItemSkus(items[..i]) + [items[i].item.sku]
  {}

  lemma PrefixDistinct(items: seq<SnapshotItem>, i: nat)
    requires i <= |items|
    ensures Distinct(ItemIds(items)) ==> Distinct(ItemIds(items[..i]))
    ensures Distinct(ItemSkus(items)) ==> Distinct(ItemSkus(items[..i]))
  {
    assert ItemIds(items) == ItemIds(items[..i]) + ItemIds(items[i..]);
    assert ItemSkus(items) == ItemSkus(items[..i]) + ItemSkus(items[i..]);
    if Distinct(ItemIds(items)) { DistinctPrefix(ItemIds(items[..i]), ItemIds(items[i..])); }
    if Distinct(ItemSkus(items)) { DistinctPrefix(ItemSkus(items[..i]), ItemSkus(items[i..])); }
    hide Distinct;
  }

  /** The body of the loop, in the order of the checks. */
  method CheckItem(t: Text, adapter: Adapter, currencies: map<string, real>, s: SnapshotItem, seenIds: set<string>,
                   seenSkus: set<string>)
      returns (error: Option<SnapshotError>)
    ensures error.None? <==> GoodItem(t, adapter, currencies, s) && s.item.id !in seenIds && s.item.sku !in seenSkus
    ensures error.Some? ==> ItemFault(t, adapter, currencies, s, seenIds, seenSkus, error.value)
  {
    if s.supplier != adapter.supplier { return Some(WrongSupplier); }
    if s.item.id == "" || s.item.id in seenIds { return Some(IdNotUnique); }
    if !StartsWith(s.item.sku, adapter.prefix) { return Some(WrongPrefix); }
    if s.item.sku in seenSkus { return Some(SkuNotUnique); }
    if s.item.currency !in currencies { return Some(UndeclaredCurrency); }
    if t.strip(s.name) == "" { return Some(NoName); }
    if !LowerHex(s.rawHash) { return Some(BadRawHash); }
    return None;
  }

  /** The loop over the items. */
  method CheckItems(t: Text, adapter: Adapter, currencies: map<string, real>, items: seq<SnapshotItem>)
      returns (error: Option<SnapshotError>)
    ensures error.None? <==> (forall i | 0 <= i < |items| :: GoodItem(t, adapter, currencies, items[i]))
                             && Distinct(ItemIds(items)) && Distinct(ItemSkus(items))
    ensures error.Some? ==> exists i: nat :: BlamesItem(t, adapter, currencies, items, i, error.value)
  {
    var seenIds: set<string>, seenSkus: set<string> := {}, {};
    hide GoodItem, ItemFault;
    for i := 0 to |items|
      invariant forall j | 0 <= j < i :: GoodItem(t, adapter, currencies, items[j])
      invariant seenIds == Elements(ItemIds(items[..i])) && seenSkus == Elements(ItemSkus(items[..i]))
      invariant Distinct(ItemIds(items[..i])) && Distinct(ItemSkus(items[..i]))
    {
      hide ItemIds, ItemSkus, Elements, Distinct;
      ItemStep(items, i);
      PrefixDistinct(items, i + 1);
      NextElement(ItemIds(items[..i]), items[i].item.id);
      NextElement(ItemSkus(items[..i]), items[i].item.sku);
      error := CheckItem(t, adapter, currencies, items[i], seenIds, seenSkus);
      if error.Some? {
        assert BlamesItem(t, adapter, currencies, items, i, error.value);
        return error;
      }
      seenIds, seenSkus := seenIds + {items[i].item.id}, seenSkus + {items[i].item.sku};
    }
    assert items[..|items|] == items;
    return None;
  }

  /** `_validate_adapter_snapshot`. */
  method ValidateAdapterSnapshot(t: Text, adapter: Adapter, source: Digest, s: Snapshot)
      returns (error: Option<SnapshotError>)
    ensures error.None? <==> AcceptsSnapshot(t, adapter, source, s)
    ensures error == Some(HashMismatch) <==> s.sourceHash != source
    ensures error == Some(OutsideBounds) <==>
              s.sourceHash == source && !(adapter.minItems <= |s.items| <= adapter.maxItems)
    ensures error == Some(NoItems) <==>
              s.sourceHash == source && adapter.minItems <= |s.items| <= adapter.maxItems && s.items == []
    ensures error.Some? && s.sourceHash == source && s.items != [] && adapter.minItems <= |s.items| <= adapter.maxItems
            ==> exists i: nat :: BlamesItem(t, adapter, s.currencies, s.items, i, error.value)
  {
    if s.sourceHash != source { return Some(HashMismatch); }
    if |s.items| < adapter.minItems || |s.items| > adapter.maxItems { return Some(OutsideBounds); }
    if s.items == [] { return Some(NoItems); }
    UniqueMeansDistinct(s.items);
    hide Matcher.UniqueIds, Matcher.UniqueSkus, GoodItem, Suppliers, ItemIds, ItemSkus, Distinct;
    error := CheckItems(t, adapter, s.currencies, s.items);
  }
}
