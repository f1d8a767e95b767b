/** What the matcher says of each supplier item, in terms of the items and suppliers alone: which of
    them share an identity with it, at which positions, and who comes first. */
module MatchingMeaning {
  import opened Common
  import opened Ordering
  import opened Catalogue
  import opened Matcher
  import MatchingLaws

  // ------------------------------------------------------------ who shares an identity

  function MakerOf(t: Text, s: SupplierItem): string {
    t.identity(if s.manufacturer.Some? then s.manufacturer.value else "")
  }

  /** The manufacturer's number, or else the model. */
  function PartOf(t: Text, s: SupplierItem): string {
    t.identity(if s.mpn.Some? && s.mpn.value != "" then s.mpn.value else if s.model.Some? then s.model.value else "")
  }

  predicate HasEan(t: Text, s: SupplierItem) { s.ean.Some? && s.ean.value != "" && t.strip(s.ean.value) != "" }

  predicate HasModel(t: Text, s: SupplierItem) { MakerOf(t, s) != "" && PartOf(t, s) != "" }

  /** The catalogue item has the identity that the supplier item shows on this route. */
  predicate Shares(t: Text, s: SupplierItem, c: CatalogItem, route: Route) {
    match route
    case BySku => c.sku == s.sku
    case ByEan => HasEan(t, s) && t.strip(c.ean) == t.strip(s.ean.value)
    case ByModel => HasModel(t, s) && t.identity(c.manufacturer) == MakerOf(t, s) && t.identity(c.model) == PartOf(t, s)
  }

  /** Two supplier items show the same identity on a secondary route. */
  predicate Twins(t: Text, a: SupplierItem, b: SupplierItem, route: Route) {
    match route
    case BySku => false
    case ByEan => HasEan(t, a) && HasEan(t, b) && t.strip(a.ean.value) == t.strip(b.ean.value)
    case ByModel => HasModel(t, a) && HasModel(t, b) && MakerOf(t, a) == MakerOf(t, b) && PartOf(t, a) == PartOf(t, b)
  }

  ghost predicate Found(t: Text, items: seq<CatalogItem>, s: SupplierItem, route: Route) {
    exists k | 0 <= k < |items| :: Shares(t, s, items[k], route)
  }

  ghost predicate Alone(t: Text, items: seq<CatalogItem>, s: SupplierItem, route: Route, k: nat) {
    && k < |items| && Shares(t, s, items[k], route)
    && forall j | 0 <= j < |items| && j != k :: !Shares(t, s, items[j], route)
  }

  ghost predicate Rivalled(t: Text, suppliers: seq<SupplierItem>, i: nat, route: Route)
    requires i < |suppliers|
  {
    exists j | 0 <= j < |suppliers| && j != i :: Twins(t, suppliers[i], suppliers[j], route)
  }

  /** The route on which the item is looked for: SKU before EAN before manufacturer and model. */
  ghost predicate Decides(t: Text, items: seq<CatalogItem>, s: SupplierItem, route: Route) {
    && s.identityWarnings == [] && Found(t, items, s, route)
    && (route != BySku ==> !Found(t, items, s, BySku))
    && (route == ByModel ==> !Found(t, items, s, ByEan))
  }

  /** Supplier `i` means catalogue item `k`: alone in the catalogue, and on the secondary routes without rival. */
  ghost predicate Means(t: Text, suppliers: seq<SupplierItem>, items: seq<CatalogItem>, i: nat, route: Route, k: nat)
    requires i < |suppliers|
  {
    && Decides(t, items, suppliers[i], route) && Alone(t, items, suppliers[i], route, k)
    && !Rivalled(t, suppliers, i, route)
  }

  /** An earlier supplier means the same product. */
  ghost predicate Taken(t: Text, suppliers: seq<SupplierItem>, items: seq<CatalogItem>, i: nat, product: int)
    requires i <= |suppliers|
  {
    exists j: nat, route: Route, k: nat | j < i && k < |items| ::
      Means(t, suppliers, items, j, route, k) && items[k].productId == product
  }

  /** Something shares its identity, but it is not clear what is meant. */
  ghost predicate Undecided(t: Text, suppliers: seq<SupplierItem>, items: seq<CatalogItem>, i: nat, route: Route)
    requires i < |suppliers|
  {
    Decides(t, items, suppliers[i], route)
    && ((forall k: nat :: !Alone(t, items, suppliers[i], route, k)) || Rivalled(t, suppliers, i, route))
  }

  // ---------------------------------------------------------- the selection, read back

  lemma NoTwinOnSku(t: Text, suppliers: seq<SupplierItem>, i: nat)
    requires i < |suppliers|
    ensures !Rivalled(t, suppliers, i, BySku)
  {}

  lemma KeyMeans(t: Text, s: SupplierItem, route: Route)
    ensures forall c :: Shares(t, s, c, route) <==>
                          CatalogHas(t, c, MatchingLaws.RouteKey(t, s, route)) && (route == ByEan ==> Truthy(s.ean))
  {}

  lemma TwinsMean(t: Text, a: SupplierItem, b: SupplierItem, route: Route)
    requires route == ByEan ==> HasEan(t, a)
    requires route == ByModel ==> HasModel(t, a)
    ensures route != BySku ==>
              (Twins(t, a, b, route) <==> SupplierHas(t, b, MatchingLaws.RouteKey(t, a, route)))
    ensures route != BySku ==> SupplierHas(t, a, MatchingLaws.RouteKey(t, a, route))
  {}

  lemma {:induction false} FoundNone(t: Text, items: seq<CatalogItem>, key: Key)
    requires forall k | 0 <= k < |items| :: !CatalogHas(t, items[k], key)
    ensures Having(t, items, key) == []
  {
    if items != [] { FoundNone(t, items[..|items| - 1], key); }
  }

  lemma {:induction false} FoundAt(t: Text, items: seq<CatalogItem>, key: Key, k: nat)
    requires k < |items| && CatalogHas(t, items[k], key)
    ensures Having(t, items, key) != []
    ensures (forall j | 0 <= j < |items| && j != k :: !CatalogHas(t, items[j], key)) ==>
              Having(t, items, key) == [items[k]]
  {
    var front := items[..|items| - 1];
    if k < |front| {
      FoundAt(t, front, key, k);
    } else if forall j | 0 <= j < |front| :: !CatalogHas(t, front[j], key) {
      FoundNone(t, front, key);
    }
    hide CatalogHas;
  }

  lemma {:induction false} FoundTwice(t: Text, items: seq<CatalogItem>, key: Key, j: nat, k: nat)
    requires j < k < |items| && CatalogHas(t, items[j], key) && CatalogHas(t, items[k], key)
    ensures |Having(t, items, key)| >= 2
  {
    var front := items[..|items| - 1];
    if k < |front| {
      FoundTwice(t, front, key, j, k);
    } else {
      FoundAt(t, front, key, j);
    }
    hide CatalogHas;
  }

  /** Finding nothing, finding one item, and which. */
  lemma HavingMeans(t: Text, items: seq<CatalogItem>, key: Key)
    ensures Having(t, items, key) != [] <==> exists k | 0 <= k < |items| :: CatalogHas(t, items[k], key)
    ensures forall k | 0 <= k < |items| && CatalogHas(t, items[k], key) ::
              |Having(t, items, key)| == 1 <==>
                forall j | 0 <= j < |items| && j != k :: !CatalogHas(t, items[j], key)
    ensures forall k | 0 <= k < |items| && CatalogHas(t, items[k], key) && |Having(t, items, key)| == 1 ::
              Having(t, items, key)[0] == items[k]
  {
    hide CatalogHas, Having;
    if forall k | 0 <= k < |items| :: !CatalogHas(t, items[k], key) { FoundNone(t, items, key); }
    forall k | 0 <= k < |items| && CatalogHas(t, items[k], key)
      ensures Having(t, items, key) != []
      ensures |Having(t, items, key)| == 1 <==> forall j | 0 <= j < |items| && j != k :: !CatalogHas(t, items[j], key)
      ensures |Having(t, items, key)| == 1 ==> Having(t, items, key)[0] == items[k]
    {
      FoundAt(t, items, key, k);
      forall j | 0 <= j < |items| && j != k && CatalogHas(t, items[j], key) ensures |Having(t, items, key)| >= 2 {
        if j < k { FoundTwice(t, items, key, j, k); } else { FoundTwice(t, items, key, k, j); }
      }
    }
  }

  lemma {:induction false} NoBearer(t: Text, suppliers: seq<SupplierItem>, key: Key)
    requires forall j | 0 <= j < |suppliers| :: !SupplierHas(t, suppliers[j], key)
    ensures Bearers(t, suppliers, key) == 0
  {
    if suppliers != [] { NoBearer(t, suppliers[..|suppliers| - 1], key); }
  }

  lemma {:induction false} OneBearer(t: Text, suppliers: seq<SupplierItem>, key: Key, i: nat)
    requires i < |suppliers| && SupplierHas(t, suppliers[i], key)
    requires forall j | 0 <= j < |suppliers| && j != i :: !SupplierHas(t, suppliers[j], key)
    ensures Bearers(t, suppliers, key) == 1
  {
    var front := suppliers[..|suppliers| - 1];
    if i < |front| { OneBearer(t, front, key, i); } else { NoBearer(t, front, key); }
    hide SupplierHas;
  }

  /** A key is borne by one supplier exactly if that one has no rival. */
  lemma BearersMean(t: Text, suppliers: seq<SupplierItem>, key: Key, i: nat)
    requires i < |suppliers| && SupplierHas(t, suppliers[i], key)
    ensures Bearers(t, suppliers, key) == 1 <==>
              forall j | 0 <= j < |suppliers| && j != i :: !SupplierHas(t, suppliers[j], key)
  {
    hide SupplierHas, Bearers;
    if forall j | 0 <= j < |suppliers| && j != i :: !SupplierHas(t, suppliers[j], key) {
      OneBearer(t, suppliers, key, i);
    }
    forall j | 0 <= j < |suppliers| && j != i && SupplierHas(t, suppliers[j], key)
      ensures Bearers(t, suppliers, key) >= 2
    {
      if j < i {
        MatchingLaws.TwoBearers(t, suppliers, key, j, i);
      } else {
        MatchingLaws.TwoBearers(t, suppliers, key, i, j);
      }
    }
  }

  /** One route: nothing found, something unclear, or one item. */
  lemma RouteMeans(t: Text, suppliers: seq<SupplierItem>, items: seq<CatalogItem>, i: nat, route: Route)
    requires i < |suppliers| && (route == ByEan ==> Truthy(suppliers[i].ean))
    ensures var s := suppliers[i]; var key := MatchingLaws.RouteKey(t, s, route);
            var found := Having(t, items, key);
            && (found != [] <==> Found(t, items, s, route))
            && (|found| == 1 <==> exists k: nat :: Alone(t, items, s, route, k))
            && (forall k: nat | Alone(t, items, s, route, k) :: k < |items| && found == [items[k]])
            && (found != [] && route != BySku ==>
                  (Bearers(t, suppliers, key) == 1 <==> !Rivalled(t, suppliers, i, route)))
  {
    var s := suppliers[i];
    var key := MatchingLaws.RouteKey(t, s, route);
    KeyMeans(t, s, route);
    HavingMeans(t, items, key);
    if Found(t, items, s, route) && route != BySku {
      assert route == ByEan ==> HasEan(t, s);
      assert route == ByModel ==> HasModel(t, s);
      forall j | 0 <= j < |suppliers| ensures Twins(t, s, suppliers[j], route) <==> SupplierHas(t, suppliers[j], key) {
        TwinsMean(t, s, suppliers[j], route);
      }
      TwinsMean(t, s, s, route);
      BearersMean(t, suppliers, key, i);
    }
    if |Having(t, items, key)| == 1 {
      var k: nat :| k < |items| && CatalogHas(t, items[k], key);
      assert Alone(t, items, s, route, k);
    }
    hide Having, CatalogHas, SupplierHas, Bearers, Shares, Twins, HasEan, HasModel;
  }

  /** What a secondary route says when it is asked. */
  lemma UniqueMeans(t: Text, suppliers: seq<SupplierItem>, items: seq<CatalogItem>, i: nat, route: Route,
                    reason: Reason)
    requires i < |suppliers| && route != BySku && (route == ByEan ==> Truthy(suppliers[i].ean))
    ensures var s := suppliers[i]; var key := MatchingLaws.RouteKey(t, s, route);
            var choice := Unique(Having(t, items, key), Bearers(t, suppliers, key), route, reason);
            && (choice == Nothing <==> !Found(t, items, s, route))
            && (choice == Unclear(reason) <==>
                  Found(t, items, s, route)
                  && ((forall k: nat :: !Alone(t, items, s, route, k)) || Rivalled(t, suppliers, i, route)))
            && (forall k: nat | Alone(t, items, s, route, k) && !Rivalled(t, suppliers, i, route) ::
                  k < |items| && choice == Pick(items[k], route))
            && (choice == Nothing || choice == Unclear(reason) || (choice.Pick? && choice.route == route))
  {
    var s := suppliers[i];
    RouteMeans(t, suppliers, items, i, route);
    forall k: nat | Alone(t, items, s, route, k) ensures Found(t, items, s, route) {}
    hide Having, Bearers, Alone, Rivalled, Found, MatchingLaws.RouteKey;
  }

  lemma BySkuMeans(t: Text, suppliers: seq<SupplierItem>, items: seq<CatalogItem>, i: nat)
    requires i < |suppliers|
    ensures var s := suppliers[i]; var bySku := Having(t, items, SkuKey(s.sku));
            && (bySku != [] <==> Found(t, items, s, BySku)) && !Rivalled(t, suppliers, i, BySku)
            && (|bySku| == 1 <==> exists k: nat :: Alone(t, items, s, BySku, k))
            && forall k: nat | Alone(t, items, s, BySku, k) :: k < |items| && bySku == [items[k]]
  {
    RouteMeans(t, suppliers, items, i, BySku);
    NoTwinOnSku(t, suppliers, i);
    hide Having, Alone, Rivalled, Found;
  }

  /** What the selection of supplier `i` is, by who shares what. */
  ghost predicate SelectionSays(t: Text, suppliers: seq<SupplierItem>, items: seq<CatalogItem>, i: nat,
                                choice: Selection)
    requires i < |suppliers|
  {
    var s := suppliers[i];
    && (choice == Flagged <==> s.identityWarnings != [])
    && (choice == Nothing <==>
          s.identityWarnings == []
          && !Found(t, items, s, BySku) && !Found(t, items, s, ByEan) && !Found(t, items, s, ByModel))
    && (choice == Unclear(SkuNotUnique) <==> Undecided(t, suppliers, items, i, BySku))
    && (choice == Unclear(EanNotUnique) <==> Undecided(t, suppliers, items, i, ByEan))
    && (choice == Unclear(ModelNotUnique) <==> Undecided(t, suppliers, items, i, ByModel))
    && forall route, k: nat | Means(t, suppliers, items, i, route, k) ::
         k < |items| && choice == Pick(items[k], route)
  }

  lemma SelectionMeans(t: Text, suppliers: seq<SupplierItem>, items: seq<CatalogItem>, i: nat)
    requires i < |suppliers|
    ensures SelectionSays(t, suppliers, items, i, Select(t, suppliers, items, suppliers[i]))
  {
    hide SelectionSays, Select, Found;
    if suppliers[i].identityWarnings != [] || Found(t, items, suppliers[i], BySku) {
      SkuSelection(t, suppliers, items, i);
    } else if Truthy(suppliers[i].ean) && Found(t, items, suppliers[i], ByEan) {
      EanSelection(t, suppliers, items, i);
    } else {
      ModelSelection(t, suppliers, items, i);
    }
  }

  lemma SkuSelection(t: Text, suppliers: seq<SupplierItem>, items: seq<CatalogItem>, i: nat)
    requires i < |suppliers| && (suppliers[i].identityWarnings != [] || Found(t, items, suppliers[i], BySku))
    ensures SelectionSays(t, suppliers, items, i, Select(t, suppliers, items, suppliers[i]))
  {
    hide Having, Bearers, Alone, Rivalled, Found, Select;
    BySkuMeans(t, suppliers, items, i);
    SelectsBySku(t, suppliers, items, i);
  }

  lemma EanSelection(t: Text, suppliers: seq<SupplierItem>, items: seq<CatalogItem>, i: nat)
    requires i < |suppliers| && suppliers[i].identityWarnings == [] && !Found(t, items, suppliers[i], BySku)
    requires Truthy(suppliers[i].ean) && Found(t, items, suppliers[i], ByEan)
    ensures SelectionSays(t, suppliers, items, i, Select(t, suppliers, items, suppliers[i]))
  {
    hide Having, Bearers, Alone, Rivalled, Found, Select, Unique, Truthy;
    BySkuMeans(t, suppliers, items, i);
    UniqueMeans(t, suppliers, items, i, ByEan, EanNotUnique);
    SelectsElsewhere(t, suppliers, items, suppliers[i]);
  }

  lemma ModelSelection(t: Text, suppliers: seq<SupplierItem>, items: seq<CatalogItem>, i: nat)
    requires i < |suppliers| && suppliers[i].identityWarnings == [] && !Found(t, items, suppliers[i], BySku)
    requires !(Truthy(suppliers[i].ean) && Found(t, items, suppliers[i], ByEan))
    ensures SelectionSays(t, suppliers, items, i, Select(t, suppliers, items, suppliers[i]))
  {
    hide Having, Bearers, Alone, Rivalled, Found, Select, Unique, Truthy;
    BySkuMeans(t, suppliers, items, i);
    UniqueMeans(t, suppliers, items, i, ByModel, ModelNotUnique);
    if Truthy(suppliers[i].ean) {
      UniqueMeans(t, suppliers, items, i, ByEan, EanNotUnique);
    } else {
      BlankEan(t, items, suppliers[i]);
    }
    SelectsElsewhere(t, suppliers, items, suppliers[i]);
  }

  lemma SelectsBySku(t: Text, suppliers: seq<SupplierItem>, items: seq<CatalogItem>, i: nat)
    requires i < |suppliers| && (suppliers[i].identityWarnings != [] || Found(t, items, suppliers[i], BySku))
    ensures var s, choice := suppliers[i], Select(t, suppliers, items, suppliers[i]);
            var bySku := Having(t, items, SkuKey(s.sku));
            choice == if s.identityWarnings != [] then Flagged
                      else if |bySku| == 1 then Pick(bySku[0], BySku) else Unclear(SkuNotUnique)
  {
    hide Having, Bearers, Alone, Rivalled, Found, Unique, Truthy;
    BySkuMeans(t, suppliers, items, i);
  }

  lemma SelectsElsewhere(t: Text, suppliers: seq<SupplierItem>, items: seq<CatalogItem>, s: SupplierItem)
    requires s.identityWarnings == [] && Having(t, items, SkuKey(s.sku)) == []
    ensures var e, m := MatchingLaws.RouteKey(t, s, ByEan), MatchingLaws.RouteKey(t, s, ByModel);
            var byEan := if !Truthy(s.ean) then Nothing
                         else Unique(Having(t, items, e), Bearers(t, suppliers, e), ByEan, EanNotUnique);
            Select(t, suppliers, items, s)
            == if byEan != Nothing then byEan
               else Unique(Having(t, items, m), Bearers(t, suppliers, m), ByModel, ModelNotUnique)
  {
    hide Having, Bearers, Unique, Truthy;
  }

  lemma BlankEan(t: Text, items: seq<CatalogItem>, s: SupplierItem)
    requires !Truthy(s.ean)
    ensures !Found(t, items, s, ByEan)
  {}

  /** One of these cases holds of every supplier. */
  lemma EveryCase(t: Text, suppliers: seq<SupplierItem>, items: seq<CatalogItem>, i: nat)
    requires i < |suppliers|
    ensures var s := suppliers[i];
            || s.identityWarnings != []
            || !(Found(t, items, s, BySku) || Found(t, items, s, ByEan) || Found(t, items, s, ByModel))
            || Undecided(t, suppliers, items, i, BySku) || Undecided(t, suppliers, items, i, ByEan)
            || Undecided(t, suppliers, items, i, ByModel)
            || exists route, k: nat :: Means(t, suppliers, items, i, route, k)
  {
    var s := suppliers[i];
    var route := if Found(t, items, s, BySku) then BySku else if Found(t, items, s, ByEan) then ByEan else ByModel;
    if Decides(t, items, s, route) && !Undecided(t, suppliers, items, i, route) {
      var k: nat :| Alone(t, items, s, route, k);
      assert Means(t, suppliers, items, i, route, k);
    }
    hide Found, Alone, Rivalled;
  }

  lemma PointsMeans(t: Text, suppliers: seq<SupplierItem>, items: seq<CatalogItem>, i: nat, product: int)
    requires i < |suppliers|
    ensures Points(t, suppliers, items, i, product) <==>
              exists route, k: nat | k < |items| ::
                Means(t, suppliers, items, i, route, k) && items[k].productId == product
  {
    SelectionMeans(t, suppliers, items, i);
    EveryCase(t, suppliers, items, i);
    hide Select, Found, Means, Undecided;
  }

  lemma ClaimedMeans(t: Text, suppliers: seq<SupplierItem>, items: seq<CatalogItem>, i: nat, product: int)
    requires i <= |suppliers|
    ensures Claimed(t, suppliers, items, i, product) <==> Taken(t, suppliers, items, i, product)
  {
    forall j | 0 <= j < i
      ensures Points(t, suppliers, items, j, product) <==>
                exists route, k: nat | k < |items| ::
                  Means(t, suppliers, items, j, route, k) && items[k].productId == product
    {
      PointsMeans(t, suppliers, items, j, product);
    }
    hide Points, Means;
    if Claimed(t, suppliers, items, i, product) {
      var j :| 0 <= j < i && Points(t, suppliers, items, j, product);
      var route, k: nat :| k < |items| && Means(t, suppliers, items, j, route, k) && items[k].productId == product;
    }
    if Taken(t, suppliers, items, i, product) {
      var j: nat, route: Route, k: nat :| j < i && k < |items|
          && Means(t, suppliers, items, j, route, k) && items[k].productId == product;
      assert Points(t, suppliers, items, j, product);
    }
  }

  // ------------------------------------------------------------------- main theorems

  /** `r` has what `s` has, once each, in the order of first occurrence. */
  ghost predicate FirstOccurrences(r: seq<string>, s: seq<string>) {
    && Distinct(r) && (forall x :: x in r <==> x in s)
    && forall a, b | 0 <= a < b < |r| :: ComesFirst(s, r[a], r[b])
  }

  ghost predicate ComesFirst(s: seq<string>, x: string, y: string) {
    exists i | 0 <= i < |s| :: s[i] == x && y !in s[..i + 1]
  }

  lemma OneLonger(front: seq<string>, last: string, x: string, y: string)
    requires ComesFirst(front, x, y)
    ensures ComesFirst(front + [last], x, y)
  {
    var s := front + [last];
    var i :| 0 <= i < |front| && front[i] == x && y !in front[..i + 1];
    assert s[..i + 1] == front[..i + 1] && s[i] == x;
  }

  lemma ComesAlone(s: seq<string>, x: string, y: string)
    requires x in s && y !in s
    ensures ComesFirst(s, x, y)
  {}

  lemma {:induction false} DedupMeans(s: seq<string>)
    ensures FirstOccurrences(Dedup(s), s)
  {
    if s != [] {
      var front, last := s[..|s| - 1], s[|s| - 1];
      DedupMeans(front);
      var was, r := Dedup(front), Dedup(s);
      assert s == front + [last];
      forall a, b | 0 <= a < b < |r| ensures ComesFirst(s, r[a], r[b]) {
        assert r[a] == was[a] && was[a] in was;
        if b < |was| {
          assert r[b] == was[b];
        } else {
          assert r[b] == last;
          ComesAlone(front, r[a], last);
        }
        OneLonger(front, last, r[a], r[b]);
      }
      hide ComesFirst;
    }
  }

  predicate EanOff(t: Text, s: SupplierItem, c: CatalogItem) {
    s.ean.Some? && s.ean.value != "" && c.ean != "" && t.strip(s.ean.value) != t.strip(c.ean)
  }

  predicate ModelOff(t: Text, s: SupplierItem, c: CatalogItem) {
    s.mpn.Some? && s.mpn.value != "" && c.model != "" && t.identity(s.mpn.value) != t.identity(c.model)
  }

  predicate MakerOff(t: Text, s: SupplierItem, c: CatalogItem) {
    s.manufacturer.Some? && s.manufacturer.value != "" && c.manufacturer != ""
    && t.identity(s.manufacturer.value) != t.identity(c.manufacturer)
  }

  /** The record of a supplier that gets a product, field by field. */
  predicate Gets(t: Text, s: SupplierItem, c: CatalogItem, route: Route, m: MatchRecord) {
    && m.id == s.id && m.sku == s.sku && m.product == Some(c.productId)
    && m.warnings == (if EanOff(t, s, c) then ["ean_mismatch"] else [])
                     + (if ModelOff(t, s, c) then ["model_mismatch"] else [])
                     + (if MakerOff(t, s, c) then ["manufacturer_mismatch"] else [])
    && match route
       case BySku =>
         m.via == Sku
         && if EanOff(t, s, c) || ModelOff(t, s, c) || MakerOff(t, s, c)
            then m.status == Conflict && m.confidence == 0.5
            else m.status == Exact && m.confidence == 1.0
       case ByEan => m.via == EanUnique && m.status == HighConfidence && m.confidence == 0.95
       case ByModel =>
         m.via == ModelUnique
         && if EanOff(t, s, c) then m.status == Conflict && m.confidence == 0.5
            else m.status == HighConfidence && m.confidence == 0.9
  }

  /** A record without product. */
  function Without(s: SupplierItem, status: Status, via: MatchedBy, warnings: seq<string>): MatchRecord {
    MatchRecord(s.id, s.sku, None, status, 0.0, via, warnings)
  }

  lemma ReasonTexts()
    ensures "catalog_sku_not_unique" != "ean_not_unique" && "catalog_sku_not_unique" != "manufacturer_model_not_unique"
    ensures "ean_not_unique" != "manufacturer_model_not_unique"
  {
    assert "catalog_sku_not_unique"[0] == 'c' && "ean_not_unique"[0] == 'e';
    assert "manufacturer_model_not_unique"[0] == 'm';
  }

  /** When a supplier item stays without a product, and what its record then says. */
  lemma UnmatchedMeans(t: Text, suppliers: seq<SupplierItem>, items: seq<CatalogItem>, r: MatchResult, i: nat)
    requires IsMatching(t, suppliers, items, r) && i < |suppliers|
    ensures var s, m := suppliers[i], r.matches[i];
            && (m.status == Unmatched <==>
                  s.identityWarnings == [] && forall route, k | 0 <= k < |items| :: !Shares(t, s, items[k], route))
            && (m.status == Unmatched ==> m == Without(s, Unmatched, NoRoute, []))
            && (m.via == IdentityConflict <==> s.identityWarnings != [])
            && (m.via == IdentityConflict ==>
                  m == Without(s, Ambiguous, IdentityConflict, m.warnings)
                  && FirstOccurrences(m.warnings, s.identityWarnings))
            && (m == Without(s, Ambiguous, Sku, ["catalog_sku_not_unique"]) <==>
                  Undecided(t, suppliers, items, i, BySku))
            && (m == Without(s, Ambiguous, IdentityCandidate, ["ean_not_unique"]) <==>
                  Undecided(t, suppliers, items, i, ByEan))
            && (m == Without(s, Ambiguous, IdentityCandidate, ["manufacturer_model_not_unique"]) <==>
                  Undecided(t, suppliers, items, i, ByModel))
            && (m.via == IdentityCandidate ==> m.warnings in {["ean_not_unique"], ["manufacturer_model_not_unique"]})
  {
    var s := suppliers[i];
    SelectionMeans(t, suppliers, items, i);
    EveryCase(t, suppliers, items, i);
    DedupMeans(s.identityWarnings);
    ReasonTexts();
    NothingShared(t, items, s);
    hide Select, Found, Means, Undecided, Shares, Claimed, Lists, Unclaimed, FirstOccurrences, Dedup;
  }

  lemma NothingShared(t: Text, items: seq<CatalogItem>, s: SupplierItem)
    ensures !(Found(t, items, s, BySku) || Found(t, items, s, ByEan) || Found(t, items, s, ByModel)) <==>
              forall route, k | 0 <= k < |items| :: !Shares(t, s, items[k], route)
  {
    forall route, k | 0 <= k < |items| && Shares(t, s, items[k], route) ensures Found(t, items, s, route) {}
    hide Shares;
  }

  /** Who gets which product, and what the record then says: the supplier that means it first. */
  lemma MatchedMeans(t: Text, suppliers: seq<SupplierItem>, items: seq<CatalogItem>, r: MatchResult, i: nat)
    requires IsMatching(t, suppliers, items, r) && i < |suppliers|
    ensures forall route, k: nat | k < |items| && Means(t, suppliers, items, i, route, k) ::
              var s, m := suppliers[i], r.matches[i];
              if Taken(t, suppliers, items, i, items[k].productId)
              then m == Without(s, Ambiguous, ProductReused, ["catalog_product_reused"])
              else Gets(t, s, items[k], route, m)
    ensures r.matches[i].product.Some? ==>
              exists route, k: nat | k < |items| ::
                Means(t, suppliers, items, i, route, k) && r.matches[i].product == Some(items[k].productId)
  {
    var s := suppliers[i];
    SelectionMeans(t, suppliers, items, i);
    EveryCase(t, suppliers, items, i);
    forall product { ClaimedMeans(t, suppliers, items, i, product); }
    forall route, k: nat | k < |items| && Means(t, suppliers, items, i, route, k)
      ensures var m := r.matches[i];
              if Taken(t, suppliers, items, i, items[k].productId)
              then m == Without(s, Ambiguous, ProductReused, ["catalog_product_reused"])
              else Gets(t, s, items[k], route, m)
    {
      ClaimGets(t, s, items[k], route);
      hide Claim, Gets;
    }
    hide Select, Found, Means, Undecided, Claimed, Taken, Lists, Unclaimed, Gets, Claim, Dedup;
  }

  lemma ClaimGets(t: Text, s: SupplierItem, c: CatalogItem, route: Route)
    ensures Gets(t, s, c, route, Claim(t, s, c, route))
  {
    MatchingLaws.WarningTexts();
  }

  /** The missing products: those that no supplier means, in ascending order. */
  lemma MissingMeans(t: Text, suppliers: seq<SupplierItem>, items: seq<CatalogItem>, r: MatchResult)
    requires IsMatching(t, suppliers, items, r)
    ensures forall p :: p in r.missing <==>
                          (exists k | 0 <= k < |items| :: items[k].productId == p)
                          && !Taken(t, suppliers, items, |suppliers|, p)
    ensures forall i, j | 0 <= i < j < |r.missing| :: r.missing[i] < r.missing[j]
  {
    forall p { ClaimedMeans(t, suppliers, items, |suppliers|, p); }
    hide Claimed, Taken, RecordAt;
    forall p ensures p in Unclaimed(t, suppliers, items) <==>
                       (exists k | 0 <= k < |items| :: items[k].productId == p)
                       && !Taken(t, suppliers, items, |suppliers|, p)
    {}
  }
}
