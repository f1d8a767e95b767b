/** Which catalogues and snapshots a run accepts, cell by cell and field by field. */
module InputsMeaning {
  import opened Common
  import opened Ordering
  import opened Catalogue
  import opened RunInputs
  import Matcher

  // ------------------------------------------------------------- the catalogue

  /** The cells of one record, under whatever header they stand. */
  ghost predicate RowOk(p: Parsers, headers: seq<string>, row: seq<string>) {
    |row| == |headers|
    && forall h | 0 <= h < |headers| ::
         var cell := row[h];
         && (headers[h] == "product_id" ==>
               var id := p.integer(p.text.strip(cell)); id.Some? && id.value > 0)
         && (headers[h] == "sku" ==> p.text.strip(cell) != "")
         && (headers[h] == "price" ==>
               var price := p.decimal(p.text.strip(if cell == "" then "0" else cell));
               price.Some? && price.value.Finite? && price.value.value >= 0.0)
         && (headers[h] == "quantity" ==>
               var quantity := p.integer(p.text.strip(if cell == "" then "0" else cell));
               quantity.Some? && quantity.value >= 0)
         && (headers[h] == "status" ==> p.integer(p.text.strip(if cell == "" then "0" else cell)).Some?)
  }

  ghost predicate HeadersOk(p: Parsers, headers: seq<string>) {
    && headers != []
    && (forall h | 0 <= h < |headers| :: p.text.strip(headers[h]) == headers[h] && headers[h] != "")
    && (forall g, h | 0 <= g < h < |headers| :: headers[g] != headers[h])
    && forall name | name in {"product_id", "model", "sku", "ean", "name", "manufacturer", "price", "quantity",
                              "status", "category_ids", "categories"} :: name in headers
  }

  lemma HeadersMean(p: Parsers, headers: seq<string>)
    ensures GoodHeaders(p, headers) <==> HeadersOk(p, headers)
  {}

  /** The one cell under a required header. */
  lemma CellUnder(p: Parsers, headers: seq<string>, row: seq<string>, name: string) returns (h: nat)
    requires HeadersOk(p, headers) && |row| == |headers|
    requires name in {"product_id", "model", "sku", "ean", "name", "manufacturer", "price", "quantity", "status",
                      "category_ids", "categories"}
    ensures h < |headers| && headers[h] == name && Cell(headers, row, name) == row[h]
    ensures forall g | 0 <= g < |headers| && headers[g] == name :: g == h
  {
    assert name in headers;
    h :| 0 <= h < |headers| && headers[h] == name;
    CellAt(headers, row, h);
  }

  lemma RowMeans(p: Parsers, headers: seq<string>, row: seq<string>)
    requires HeadersOk(p, headers)
    ensures GoodRow(p, headers, row) <==> RowOk(p, headers, row)
  {
    hide Cell, HeadersOk;
    if |row| == |headers| {
      var id := CellUnder(p, headers, row, "product_id");
      var sku := CellUnder(p, headers, row, "sku");
      var price := CellUnder(p, headers, row, "price");
      var quantity := CellUnder(p, headers, row, "quantity");
      var status := CellUnder(p, headers, row, "status");
    }
  }

  /** The product that a record names. */
  function Named(p: Parsers, headers: seq<string>, row: seq<string>): set<int>
    requires |row| == |headers|
  {
    set h | 0 <= h < |headers| && headers[h] == "product_id" && p.integer(p.text.strip(row[h])).Some?
      :: p.integer(p.text.strip(row[h])).value
  }

  lemma NamedMeans(p: Parsers, headers: seq<string>, row: seq<string>)
    requires HeadersOk(p, headers) && RowOk(p, headers, row)
    ensures ProductId(p, headers, row).Some? && Named(p, headers, row) == {ProductId(p, headers, row).value}
  {
    hide Cell, HeadersOk;
    var id := CellUnder(p, headers, row, "product_id");
    assert p.integer(p.text.strip(row[id])).Some?;
  }

  lemma {:induction false} IdIsNamed(p: Parsers, headers: seq<string>, rows: seq<seq<string>>, id: int)
    ensures id in Ids(p, headers, rows) <==>
              exists i | 0 <= i < |rows| :: rows[i] != [] && ProductId(p, headers, rows[i]) == Some(id)
  {
    hide ProductId;
    if rows != [] { IdIsNamed(p, headers, rows[..|rows| - 1], id); }
  }

  ghost predicate Different(p: Parsers, headers: seq<string>, rows: seq<seq<string>>) {
    forall i, j | 0 <= i < j < |rows| && rows[i] != [] && rows[j] != [] ::
      ProductId(p, headers, rows[i]) != ProductId(p, headers, rows[j])
  }

  lemma DifferentNext(p: Parsers, headers: seq<string>, front: seq<seq<string>>, last: seq<string>)
    ensures Different(p, headers, front + [last]) <==>
              Different(p, headers, front)
              && (last != [] ==> forall i | 0 <= i < |front| && front[i] != [] ::
                    ProductId(p, headers, front[i]) != ProductId(p, headers, last))
  {
    hide ProductId;
    var rows := front + [last];
    assert rows[|front|] == last && forall i | 0 <= i < |front| :: rows[i] == front[i];
    if Different(p, headers, rows) {
      forall i, j | 0 <= i < j < |front| && front[i] != [] && front[j] != []
        ensures ProductId(p, headers, front[i]) != ProductId(p, headers, front[j])
      {
        assert rows[i] == front[i] && rows[j] == front[j];
      }
    }
  }

  lemma {:induction false} DistinctIds(p: Parsers, headers: seq<string>, rows: seq<seq<string>>)
    requires forall i | 0 <= i < |rows| && rows[i] != [] :: ProductId(p, headers, rows[i]).Some?
    ensures Distinct(Ids(p, headers, rows)) <==> Different(p, headers, rows)
  {
    hide ProductId, Distinct;
    if rows == [] {
      NoIds(p, headers);
    } else {
      var front, last := rows[..|rows| - 1], rows[|rows| - 1];
      DistinctIds(p, headers, front);
      assert rows == front + [last];
      DifferentNext(p, headers, front, last);
      hide Different;
      if last != [] {
        var id := ProductId(p, headers, last).value;
        IdIsNamed(p, headers, front, id);
        NextElement(Ids(p, headers, front), id);
        assert Ids(p, headers, rows) == Ids(p, headers, front) + [id];
      } else {
        assert Ids(p, headers, rows) == Ids(p, headers, front);
      }
    }
  }

  lemma NoIds(p: Parsers, headers: seq<string>)
    ensures Distinct(Ids(p, headers, []))
  {}

  /** A catalogue is accepted exactly if its headers are, every record with fields has as many of them as
      there are headers and good cells under these, and no two records name one product. */
  lemma CatalogueMeans(p: Parsers, table: Table)
    ensures Accepts(p, table) <==>
              && HeadersOk(p, table.headers)
              && (forall i | 0 <= i < |table.rows| && table.rows[i] != [] :: RowOk(p, table.headers, table.rows[i]))
              && forall i, j | 0 <= i < j < |table.rows| && table.rows[i] != [] && table.rows[j] != [] ::
                   Named(p, table.headers, table.rows[i]) !! Named(p, table.headers, table.rows[j])
  {
    var headers, rows := table.headers, table.rows;
    HeadersMean(p, headers);
    hide GoodHeaders, HeadersOk, Distinct, Ids;
    if HeadersOk(p, headers) {
      RowsMean(p, headers, rows);
      if GoodRows(p, headers, rows) {
        IdsMean(p, headers, rows);
      }
    }
    hide GoodRows, RowOk, Named;
  }

  lemma RowsMean(p: Parsers, headers: seq<string>, rows: seq<seq<string>>)
    requires HeadersOk(p, headers)
    ensures GoodRows(p, headers, rows) <==>
              forall i | 0 <= i < |rows| && rows[i] != [] :: RowOk(p, headers, rows[i])
  {
    forall i | 0 <= i < |rows| ensures GoodRow(p, headers, rows[i]) <==> RowOk(p, headers, rows[i]) {
      RowMeans(p, headers, rows[i]);
    }
    hide GoodRow, RowOk, HeadersOk;
  }

  lemma IdsMean(p: Parsers, headers: seq<string>, rows: seq<seq<string>>)
    requires HeadersOk(p, headers) && GoodRows(p, headers, rows)
    ensures forall i | 0 <= i < |rows| && rows[i] != [] :: |rows[i]| == |headers|
    ensures Distinct(Ids(p, headers, rows)) <==>
              forall i, j | 0 <= i < j < |rows| && rows[i] != [] && rows[j] != [] ::
                Named(p, headers, rows[i]) !! Named(p, headers, rows[j])
  {
    RowsMean(p, headers, rows);
    hide GoodRow, RowOk, HeadersOk, Named, ProductId, Ids, Distinct;
    forall i | 0 <= i < |rows| && rows[i] != []
      ensures |rows[i]| == |headers| && ProductId(p, headers, rows[i]).Some?
      ensures Named(p, headers, rows[i]) == {ProductId(p, headers, rows[i]).value}
    {
      RowLength(p, headers, rows[i]);
      NamedMeans(p, headers, rows[i]);
    }
    DistinctIds(p, headers, rows);
  }

  lemma RowLength(p: Parsers, headers: seq<string>, row: seq<string>)
    requires GoodRow(p, headers, row)
    ensures |row| == |headers|
  {}

  /** The records that are loaded: with fields, and with the prefix on their SKU. */
  ghost predicate Loads(p: Parsers, headers: seq<string>, row: seq<string>, prefix: string) {
    |row| == |headers| && row != []
    && exists h | 0 <= h < |headers| :: headers[h] == "sku" && prefix <= p.text.strip(row[h])
  }

  lemma LoadsMeans(p: Parsers, headers: seq<string>, row: seq<string>, prefix: string)
    requires HeadersOk(p, headers) && |row| == |headers|
    ensures Loads(p, headers, row, prefix) <==> row != [] && StartsWith(Stripped(p, headers, row, "sku"), prefix)
  {
    hide Cell, HeadersOk;
    var sku := CellUnder(p, headers, row, "sku");
  }

  ghost function LoadedAt(p: Parsers, headers: seq<string>, rows: seq<seq<string>>, prefix: string): set<nat> {
    set i: nat | i < |rows| && Loads(p, headers, rows[i], prefix)
  }

  lemma {:induction false} LoadedCount(p: Parsers, headers: seq<string>, rows: seq<seq<string>>, prefix: string)
    requires HeadersOk(p, headers) && GoodRows(p, headers, rows)
    ensures |Items(p, headers, rows, prefix)| == |LoadedAt(p, headers, rows, prefix)|
  {
    hide HeadersOk, Loads, GoodRow, Stripped;
    if rows == [] {
      assert LoadedAt(p, headers, rows, prefix) == {};
    } else {
      var front, last := rows[..|rows| - 1], rows[|rows| - 1];
      LoadedCount(p, headers, front, prefix);
      LastLoads(p, headers, last, prefix);
      var was := LoadedAt(p, headers, front, prefix);
      assert LoadedAt(p, headers, rows, prefix)
             == if Loads(p, headers, last, prefix) then was + {|front|} else was;
    }
  }

  lemma LastLoads(p: Parsers, headers: seq<string>, row: seq<string>, prefix: string)
    requires HeadersOk(p, headers) && (row != [] ==> GoodRow(p, headers, row))
    ensures Loads(p, headers, row, prefix) <==>
              row != [] && |row| == |headers| && StartsWith(Stripped(p, headers, row, "sku"), prefix)
    ensures row != [] ==> |row| == |headers|
  {
    hide HeadersOk, Loads, Stripped;
    if |row| == |headers| { LoadsMeans(p, headers, row, prefix); } else { NotLoaded(p, headers, row, prefix); }
  }

  lemma NotLoaded(p: Parsers, headers: seq<string>, row: seq<string>, prefix: string)
    requires |row| != |headers|
    ensures !Loads(p, headers, row, prefix)
  {}

  /** The items follow the records: the item of a record stands after those of the records before it. */
  lemma {:induction false} LoadedMeans(p: Parsers, headers: seq<string>, rows: seq<seq<string>>, prefix: string, i: nat)
    requires HeadersOk(p, headers) && GoodRows(p, headers, rows)
    requires i < |rows| && Loads(p, headers, rows[i], prefix)
    ensures var at := |LoadedAt(p, headers, rows[..i], prefix)|;
            && at < |Items(p, headers, rows, prefix)| && |rows[i]| == |headers|
            && ReadOff(p, headers, rows[i], Items(p, headers, rows, prefix)[at])
  {
    var front, last := rows[..|rows| - 1], rows[|rows| - 1];
    hide HeadersOk, GoodRow, Stripped, ItemOf, ReadOff;
    if i < |front| {
      LoadedMeans(p, headers, front, prefix, i);
      assert front[..i] == rows[..i];
    } else {
      LoadedCount(p, headers, front, prefix);
      LastLoads(p, headers, last, prefix);
      assert rows[..i] == front;
      RowReadOff(p, headers, last);
    }
    hide LoadedAt, Loads;
  }

  lemma RowReadOff(p: Parsers, headers: seq<string>, row: seq<string>)
    requires HeadersOk(p, headers) && GoodRow(p, headers, row)
    ensures ReadOff(p, headers, row, ItemOf(p, headers, row))
  {
    assert Distinct(headers);
    hide HeadersOk;
    ReadOffRow(p, headers, row);
  }

  // -------------------------------------------------------------- the snapshot

  /** An item that the adapter may deliver. */
  ghost predicate ItemOk(t: Text, adapter: Adapter, currencies: map<string, real>, s: SnapshotItem) {
    && s.supplier == adapter.supplier && s.item.id != "" && adapter.prefix <= s.item.sku
    && s.item.currency in currencies && t.strip(s.name) != ""
    && |s.rawHash| == 64
    && forall c | c in s.rawHash :: c in "0123456789abcdef"
  }

  lemma ItemMeans(t: Text, adapter: Adapter, currencies: map<string, real>, s: SnapshotItem)
    ensures GoodItem(t, adapter, currencies, s) <==> ItemOk(t, adapter, currencies, s)
  {
    HexMeans();
    assert forall i | 0 <= i < |s.rawHash| :: s.rawHash[i] in s.rawHash;
    if ItemOk(t, adapter, currencies, s) {
      assert forall i | 0 <= i < 64 :: '0' <= s.rawHash[i] <= '9' || 'a' <= s.rawHash[i] <= 'f';
    }
    if GoodItem(t, adapter, currencies, s) {
      forall c | c in s.rawHash ensures c in "0123456789abcdef" {
        var i :| 0 <= i < |s.rawHash| && s.rawHash[i] == c;
      }
    }
  }

  lemma HexMeans()
    ensures forall c: char :: c in "0123456789abcdef" <==> '0' <= c <= '9' || 'a' <= c <= 'f'
  {
    var hex := "0123456789abcdef";
    assert hex[0] == '0' && hex[1] == '1' && hex[2] == '2' && hex[3] == '3' && hex[4] == '4' && hex[5] == '5';
    assert hex[6] == '6' && hex[7] == '7' && hex[8] == '8' && hex[9] == '9' && hex[10] == 'a' && hex[11] == 'b';
    assert hex[12] == 'c' && hex[13] == 'd' && hex[14] == 'e' && hex[15] == 'f';
  }

  /** A snapshot is accepted exactly if it is of this source and within bounds, every item is good, and
      no two share an id or a SKU. */
  lemma SnapshotMeans(t: Text, adapter: Adapter, source: Digest, s: Snapshot)
    ensures AcceptsSnapshot(t, adapter, source, s) <==>
              && s.sourceHash == source && |s.items| >= 1 && adapter.minItems <= |s.items| <= adapter.maxItems
              && (forall i | 0 <= i < |s.items| :: ItemOk(t, adapter, s.currencies, s.items[i]))
              && forall i, j | 0 <= i < j < |s.items| ::
                   s.items[i].item.id != s.items[j].item.id && s.items[i].item.sku != s.items[j].item.sku
  {
    forall i | 0 <= i < |s.items|
      ensures GoodItem(t, adapter, s.currencies, s.items[i]) <==> ItemOk(t, adapter, s.currencies, s.items[i])
      ensures Suppliers(s.items)[i] == s.items[i].item
    {
      ItemMeans(t, adapter, s.currencies, s.items[i]);
    }
    hide GoodItem, ItemOk, Suppliers;
  }
}
