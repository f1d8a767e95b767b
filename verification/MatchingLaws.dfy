/** Laws of the matching result: independence of input order, conservation of the catalogue,
    how often a product can be pointed at, and what a record's status guarantees. */
module MatchingLaws {
  import opened Common
  import opened Ordering
  import opened Catalogue
  import opened Matcher

  // --------------------------------------------------------- order of the catalogue

  lemma {:induction false} HavingElements(t: Text, items: seq<CatalogItem>, k: Key, c: CatalogItem)
    ensures multiset(Having(t, items, k))[c] == if CatalogHas(t, c, k) then multiset(items)[c] else 0
  {
    if items != [] {
      var front, last := items[..|items| - 1], items[|items| - 1];
      HavingElements(t, front, k, c);
      assert items == front + [last];
    }
  }

  /** Under a permutation a key keeps its number of items, and a single item stays the same one. */
  lemma HavingPermuted(t: Text, a: seq<CatalogItem>, b: seq<CatalogItem>, k: Key)
    requires multiset(a) == multiset(b)
    ensures |Having(t, a, k)| == |Having(t, b, k)|
    ensures |Having(t, a, k)| == 1 ==> Having(t, a, k)[0] == Having(t, b, k)[0]
  {
    var x, y := Having(t, a, k), Having(t, b, k);
    hide Having, CatalogHas;
    forall c ensures multiset(x)[c] == multiset(y)[c] {
      HavingElements(t, a, k, c);
      HavingElements(t, b, k, c);
    }
    SameSize(x, y);
  }

  lemma UniquePermuted(t: Text, a: seq<CatalogItem>, b: seq<CatalogItem>, k: Key, bearers: nat, route: Route,
                       reason: Reason)
    requires multiset(a) == multiset(b)
    ensures Unique(Having(t, a, k), bearers, route, reason) == Unique(Having(t, b, k), bearers, route, reason)
  {
    HavingPermuted(t, a, b, k);
    hide Having;
  }

  lemma SelectIgnoresCatalogOrder(t: Text, suppliers: seq<SupplierItem>, a: seq<CatalogItem>, b: seq<CatalogItem>,
                                  s: SupplierItem)
    requires multiset(a) == multiset(b)
    ensures Select(t, suppliers, a, s) == Select(t, suppliers, b, s)
  {
    HavingPermuted(t, a, b, SkuKey(s.sku));
    UniquePermuted(t, a, b, EanKeyOf(t, s), Bearers(t, suppliers, EanKeyOf(t, s)), ByEan, EanNotUnique);
    UniquePermuted(t, a, b, ModelKeyOf(t, s), Bearers(t, suppliers, ModelKeyOf(t, s)), ByModel, ModelNotUnique);
    hide Having, Unique, Bearers;
  }

  lemma ClaimedIgnoresCatalogOrder(t: Text, suppliers: seq<SupplierItem>, a: seq<CatalogItem>, b: seq<CatalogItem>,
                                   i: nat, product: int)
    requires multiset(a) == multiset(b) && i <= |suppliers|
    ensures Claimed(t, suppliers, a, i, product) <==> Claimed(t, suppliers, b, i, product)
  {
    forall j | 0 <= j < i ensures Points(t, suppliers, a, j, product) == Points(t, suppliers, b, j, product) {
      SelectIgnoresCatalogOrder(t, suppliers, a, b, suppliers[j]);
    }
    hide Select;
  }

  /** Permuting the catalogue leaves the whole result unchanged. */
  lemma CatalogOrderIsIrrelevant(t: Text, suppliers: seq<SupplierItem>, a: seq<CatalogItem>, b: seq<CatalogItem>,
                                 r: MatchResult, r': MatchResult)
    requires multiset(a) == multiset(b)
    requires IsMatching(t, suppliers, a, r) && IsMatching(t, suppliers, b, r')
    ensures r == r'
  {
    forall i | 0 <= i < |suppliers| ensures r.matches[i] == r'.matches[i] {
      SelectIgnoresCatalogOrder(t, suppliers, a, b, suppliers[i]);
      var choice := Select(t, suppliers, a, suppliers[i]);
      if choice.Pick? {
        ClaimedIgnoresCatalogOrder(t, suppliers, a, b, i, choice.item.productId);
      }
      hide Select, Claimed;
    }
    forall c ensures c in a <==> c in b {
      assert c in a <==> c in multiset(a);
      assert c in b <==> c in multiset(b);
    }
    forall c | c in a
      ensures Claimed(t, suppliers, a, |suppliers|, c.productId) <==> Claimed(t, suppliers, b, |suppliers|, c.productId)
    {
      ClaimedIgnoresCatalogOrder(t, suppliers, a, b, |suppliers|, c.productId);
    }
    hide Claimed, RecordAt, Lists;
    assert Unclaimed(t, suppliers, a) == Unclaimed(t, suppliers, b);
    ListingIsUnique(r.missing, r'.missing, Unclaimed(t, suppliers, a), AtMost);
  }

  // --------------------------------------------------------- order of the suppliers

  lemma {:induction false} BearersCount(t: Text, suppliers: seq<SupplierItem>, k: Key)
    ensures Bearers(t, suppliers, k) == |BearersOf(t, suppliers, k)|
  {
    hide SupplierHas;
    if suppliers != [] { BearersCount(t, suppliers[..|suppliers| - 1], k); }
  }

  lemma {:induction false} BearersByElement(t: Text, suppliers: seq<SupplierItem>, k: Key, s: SupplierItem)
    ensures multiset(BearersOf(t, suppliers, k))[s] == if SupplierHas(t, s, k) then multiset(suppliers)[s] else 0
  {
    hide SupplierHas;
    if suppliers != [] {
      var front, last := suppliers[..|suppliers| - 1], suppliers[|suppliers| - 1];
      BearersByElement(t, front, k, s);
      assert suppliers == front + [last];
    }
  }

  function BearersOf(t: Text, suppliers: seq<SupplierItem>, k: Key): seq<SupplierItem> {
    if suppliers == [] then []
    else
      var last := suppliers[|suppliers| - 1];
      BearersOf(t, suppliers[..|suppliers| - 1], k) + (if SupplierHas(t, last, k) then [last] else [])
  }

  lemma BearersPermuted(t: Text, a: seq<SupplierItem>, b: seq<SupplierItem>, k: Key)
    requires multiset(a) == multiset(b)
    ensures Bearers(t, a, k) == Bearers(t, b, k)
  {
    hide Bearers, BearersOf, SupplierHas;
    BearersCount(t, a, k);
    BearersCount(t, b, k);
    forall s ensures multiset(BearersOf(t, a, k))[s] == multiset(BearersOf(t, b, k))[s] {
      BearersByElement(t, a, k, s);
      BearersByElement(t, b, k, s);
    }
    SameSize(BearersOf(t, a, k), BearersOf(t, b, k));
  }

  lemma SelectIgnoresSupplierOrder(t: Text, a: seq<SupplierItem>, b: seq<SupplierItem>, items: seq<CatalogItem>,
                                   s: SupplierItem)
    requires multiset(a) == multiset(b)
    ensures Select(t, a, items, s) == Select(t, b, items, s)
  {
    BearersPermuted(t, a, b, EanKeyOf(t, s));
    BearersPermuted(t, a, b, ModelKeyOf(t, s));
    hide Having, Bearers;
  }

  lemma PointedAtEitherWay(t: Text, a: seq<SupplierItem>, b: seq<SupplierItem>, items: seq<CatalogItem>, product: int)
    requires multiset(a) == multiset(b)
    ensures Claimed(t, a, items, |a|, product) ==> Claimed(t, b, items, |b|, product)
  {
    if Claimed(t, a, items, |a|, product) {
      var i :| 0 <= i < |a| && Points(t, a, items, i, product);
      assert a[i] in multiset(b);
      var j :| 0 <= j < |b| && b[j] == a[i];
      SelectIgnoresSupplierOrder(t, a, b, items, a[i]);
      assert Points(t, b, items, j, product);
    }
    hide Select;
  }

  /** Permuting the suppliers never changes which products are missing. */
  lemma SupplierOrderKeepsMissing(t: Text, a: seq<SupplierItem>, b: seq<SupplierItem>, items: seq<CatalogItem>,
                                  r: MatchResult, r': MatchResult)
    requires multiset(a) == multiset(b)
    requires IsMatching(t, a, items, r) && IsMatching(t, b, items, r')
    ensures r.missing == r'.missing
  {
    forall c | c in items
      ensures Claimed(t, a, items, |a|, c.productId) <==> Claimed(t, b, items, |b|, c.productId)
    {
      PointedAtEitherWay(t, a, b, items, c.productId);
      PointedAtEitherWay(t, b, a, items, c.productId);
    }
    hide Claimed, RecordAt, Lists;
    assert Unclaimed(t, a, items) == Unclaimed(t, b, items);
    ListingIsUnique(r.missing, r'.missing, Unclaimed(t, a, items), AtMost);
  }

  ghost predicate NothingReused(r: MatchResult) {
    forall i | 0 <= i < |r.matches| :: r.matches[i].via != ProductReused
  }

  /** If no record says `catalog_product_reused`, no two suppliers point at one product. */
  lemma NoReuseMeansInjective(t: Text, suppliers: seq<SupplierItem>, items: seq<CatalogItem>, r: MatchResult,
                              i: nat, j: nat, product: int)
    requires IsMatching(t, suppliers, items, r) && NothingReused(r)
    requires i < |suppliers| && j < |suppliers|
    requires Points(t, suppliers, items, i, product) && Points(t, suppliers, items, j, product)
    ensures i == j
  {
    assert i < j ==> Claimed(t, suppliers, items, j, product);
    assert j < i ==> Claimed(t, suppliers, items, i, product);
    assert r.matches[i].via != ProductReused && r.matches[j].via != ProductReused;
    hide Select;
  }

  /** The same condition on the input: no two suppliers point at one product. */
  ghost predicate OneSupplierPerProduct(t: Text, suppliers: seq<SupplierItem>, items: seq<CatalogItem>) {
    forall i, j, product | 0 <= i < |suppliers| && 0 <= j < |suppliers|
                           && Points(t, suppliers, items, i, product) && Points(t, suppliers, items, j, product) ::
      i == j
  }

  lemma NothingReusedIff(t: Text, suppliers: seq<SupplierItem>, items: seq<CatalogItem>, r: MatchResult)
    requires IsMatching(t, suppliers, items, r)
    ensures NothingReused(r) <==> OneSupplierPerProduct(t, suppliers, items)
  {
    RecordIds(t, suppliers, items, r);
    hide IsMatching, Points;
    if NothingReused(r) {
      forall i, j, product | 0 <= i < |suppliers| && 0 <= j < |suppliers|
                             && Points(t, suppliers, items, i, product) && Points(t, suppliers, items, j, product)
        ensures i == j
      {
        NoReuseMeansInjective(t, suppliers, items, r, i, j, product);
      }
    }
    if i: nat :| i < |suppliers| && r.matches[i].via == ProductReused {
      var product := ReusedMeans(t, suppliers, items, r, i);
      var j :| 0 <= j < i && Points(t, suppliers, items, j, product);
      assert !OneSupplierPerProduct(t, suppliers, items);
    }
  }

  /** ... and then each supplier keeps its record under every permutation of the suppliers. */
  lemma SupplierOrderKeepsRecords(t: Text, a: seq<SupplierItem>, b: seq<SupplierItem>, items: seq<CatalogItem>,
                                  r: MatchResult, r': MatchResult, i: nat, j: nat)
    requires multiset(a) == multiset(b) && UniqueIds(a)
    requires IsMatching(t, a, items, r) && IsMatching(t, b, items, r') && NothingReused(r)
    requires i < |a| && j < |b| && a[i] == b[j]
    ensures r.matches[i] == r'.matches[j]
  {
    SelectIgnoresSupplierOrder(t, a, b, items, a[i]);
    var choice := Select(t, a, items, a[i]);
    if choice.Pick? {
      var p := choice.item.productId;
      assert Points(t, a, items, i, p);
      if Claimed(t, a, items, i, p) {
        var k :| 0 <= k < i && Points(t, a, items, k, p);
        NoReuseMeansInjective(t, a, items, r, i, k, p);
      }
      if Claimed(t, b, items, j, p) {
        var k :| 0 <= k < j && Points(t, b, items, k, p);
        assert b[k] in multiset(a);
        var m :| 0 <= m < |a| && a[m] == b[k];
        SelectIgnoresSupplierOrder(t, a, b, items, a[m]);
        assert Points(t, a, items, m, p);
        NoReuseMeansInjective(t, a, items, r, i, m, p);
        assert b[k] == b[j];
        IdsStayUnique(a, b);
      }
    }
    hide Select, Claimed, Points, UniqueIds;
  }

  lemma IdsStayUnique(a: seq<SupplierItem>, b: seq<SupplierItem>)
    requires multiset(a) == multiset(b) && UniqueIds(a)
    ensures Distinct(a) && Distinct(b) && UniqueIds(b)
  {
    DistinctIsMultiset(a);
    DistinctIsMultiset(b);
    forall i, j | 0 <= i < j < |b| ensures b[i].id != b[j].id {
      assert b[i] in multiset(a) && b[j] in multiset(a);
      var x :| 0 <= x < |a| && a[x] == b[i];
      var y :| 0 <= y < |a| && a[y] == b[j];
    }
  }

  /** Permuting the suppliers only permutes the records, when none of them is `catalog_product_reused`. */
  lemma SupplierOrderPermutesRecords(t: Text, a: seq<SupplierItem>, b: seq<SupplierItem>, items: seq<CatalogItem>,
                                     r: MatchResult, r': MatchResult)
    requires multiset(a) == multiset(b) && UniqueIds(a)
    requires IsMatching(t, a, items, r) && IsMatching(t, b, items, r') && OneSupplierPerProduct(t, a, items)
    ensures multiset(r.matches) == multiset(r'.matches)
  {
    NothingReusedIff(t, a, items, r);
    forall i, j | 0 <= i < |a| && 0 <= j < |b| && a[i] == b[j] ensures r.matches[i] == r'.matches[j] {
      SupplierOrderKeepsRecords(t, a, b, items, r, r', i, j);
    }
    PermutedImages(a, b, r.matches, r'.matches);
    hide IsMatching, UniqueIds, NothingReused;
  }

  lemma ReusedMeans(t: Text, suppliers: seq<SupplierItem>, items: seq<CatalogItem>, r: MatchResult, i: nat)
      returns (product: int)
    requires IsMatching(t, suppliers, items, r) && i < |suppliers| && r.matches[i].via == ProductReused
    ensures Points(t, suppliers, items, i, product) && Claimed(t, suppliers, items, i, product)
  {
    product := Select(t, suppliers, items, suppliers[i]).item.productId;
    hide Select, Claimed, Lists, Unclaimed;
  }

  lemma FirstClaims(t: Text, suppliers: seq<SupplierItem>, items: seq<CatalogItem>, r: MatchResult, i: nat,
                    product: int)
    requires IsMatching(t, suppliers, items, r) && i < |suppliers|
    requires Points(t, suppliers, items, i, product) && !Claimed(t, suppliers, items, i, product)
    ensures r.matches[i].via != ProductReused
  {
    hide Select, Claimed, Lists, Unclaimed, Warnings;
  }

  lemma RecordIds(t: Text, suppliers: seq<SupplierItem>, items: seq<CatalogItem>, r: MatchResult)
    requires IsMatching(t, suppliers, items, r)
    ensures |r.matches| == |suppliers| && forall i | 0 <= i < |suppliers| :: r.matches[i].id == suppliers[i].id
  {
    hide Select, Claimed, Lists, Unclaimed, Warnings;
  }

  /** The condition is exact: where a record says `catalog_product_reused`, exchanging its supplier
      with the one that claimed the product makes a list whose result does not hold that record. */
  lemma ReuseDependsOnOrder(t: Text, a: seq<SupplierItem>, items: seq<CatalogItem>, r: MatchResult, i: nat)
      returns (b: seq<SupplierItem>)
    requires IsMatching(t, a, items, r) && UniqueIds(a) && i < |a| && r.matches[i].via == ProductReused
    ensures multiset(b) == multiset(a)
    ensures forall r' | IsMatching(t, b, items, r') :: r.matches[i] !in r'.matches
  {
    var p := ReusedMeans(t, a, items, r, i);
    var j := FirstToPoint(t, a, items, i, p);
    b := a[i := a[j]][j := a[i]];
    Exchanged(a, i, j);
    IdsStayUnique(a, b);
    RecordIds(t, a, items, r);
    forall k: nat | k < |a|
      ensures Points(t, b, items, k, p) == Points(t, a, items, if k == i then j else if k == j then i else k, p)
    {
      SelectIgnoresSupplierOrder(t, a, b, items, b[k]);
      hide Select;
    }
    hide IsMatching, Points;
    assert !Claimed(t, b, items, j, p);
    forall r' | IsMatching(t, b, items, r') ensures r.matches[i] !in r'.matches {
      RecordIds(t, b, items, r');
      FirstClaims(t, b, items, r', j, p);
    }
  }

  lemma Exchanged(a: seq<SupplierItem>, i: nat, j: nat)
    requires i < |a| && j < |a|
    ensures multiset(a[i := a[j]][j := a[i]]) == multiset(a)
  {}

  // --------------------------------------------------- one supplier for each route

  lemma {:induction false} HavingHas(t: Text, items: seq<CatalogItem>, k: Key, i: nat)
    requires i < |Having(t, items, k)|
    ensures Having(t, items, k)[i] in items && CatalogHas(t, Having(t, items, k)[i], k)
  {
    var front := items[..|items| - 1];
    assert items == front + [items[|items| - 1]];
    if i < |Having(t, front, k)| { HavingHas(t, front, k, i); }
  }

  lemma {:induction false} BearersAtLeast(t: Text, suppliers: seq<SupplierItem>, k: Key, i: nat)
    requires i < |suppliers| && SupplierHas(t, suppliers[i], k)
    ensures Bearers(t, suppliers, k) >= 1
  {
    if i < |suppliers| - 1 { BearersAtLeast(t, suppliers[..|suppliers| - 1], k, i); }
  }

  lemma {:induction false} TwoBearers(t: Text, suppliers: seq<SupplierItem>, k: Key, i: nat, j: nat)
    requires i < j < |suppliers| && SupplierHas(t, suppliers[i], k) && SupplierHas(t, suppliers[j], k)
    ensures Bearers(t, suppliers, k) >= 2
  {
    var front := suppliers[..|suppliers| - 1];
    if j == |suppliers| - 1 {
      BearersAtLeast(t, front, k, i);
    } else {
      TwoBearers(t, front, k, i, j);
    }
  }

  function RouteKey(t: Text, s: SupplierItem, route: Route): Key {
    match route
    case BySku => SkuKey(s.sku)
    case ByEan => EanKeyOf(t, s)
    case ByModel => ModelKeyOf(t, s)
  }

  /** A pick is a catalogue item that shares the key of its route with the supplier; on the two
      secondary routes nobody else bears that key. */
  lemma PickMeans(t: Text, suppliers: seq<SupplierItem>, items: seq<CatalogItem>, s: SupplierItem)
    requires Select(t, suppliers, items, s).Pick?
    ensures var choice := Select(t, suppliers, items, s);
            var k := RouteKey(t, s, choice.route);
            && Having(t, items, k) == [choice.item] && choice.item in items && CatalogHas(t, choice.item, k)
            && SupplierHas(t, s, k)
            && (choice.route != BySku ==> Bearers(t, suppliers, k) == 1 && Having(t, items, SkuKey(s.sku)) == [])
  {
    HavingHas(t, items, RouteKey(t, s, Select(t, suppliers, items, s).route), 0);
    hide Having, Bearers;
  }

  lemma SameProduct(items: seq<CatalogItem>, a: CatalogItem, b: CatalogItem)
    requires UniqueProducts(items) && a in items && b in items && a.productId == b.productId
    ensures a == b
  {
    var i :| 0 <= i < |items| && items[i] == a;
    var j :| 0 <= j < |items| && items[j] == b;
  }

  /** At most one supplier reaches a given product by each of the three routes. */
  lemma OneSupplierPerRoute(t: Text, suppliers: seq<SupplierItem>, items: seq<CatalogItem>, i: nat, j: nat)
    requires UniqueSkus(suppliers) && UniqueProducts(items)
    requires i < |suppliers| && j < |suppliers|
    requires var a := Select(t, suppliers, items, suppliers[i]); var b := Select(t, suppliers, items, suppliers[j]);
             a.Pick? && b.Pick? && a.item.productId == b.item.productId && a.route == b.route
    ensures i == j
  {
    var a, b := Select(t, suppliers, items, suppliers[i]), Select(t, suppliers, items, suppliers[j]);
    PickMeans(t, suppliers, items, suppliers[i]);
    PickMeans(t, suppliers, items, suppliers[j]);
    SameProduct(items, a.item, b.item);
    var k := RouteKey(t, suppliers[i], a.route);
    assert k == RouteKey(t, suppliers[j], a.route);
    if a.route != BySku {
      if i < j { TwoBearers(t, suppliers, k, i, j); }
      if j < i { TwoBearers(t, suppliers, k, j, i); }
    }
    hide Select, Having, Bearers, UniqueProducts;
  }

  ghost function PointingAt(t: Text, suppliers: seq<SupplierItem>, items: seq<CatalogItem>, product: int): set<nat> {
    set i: nat | i < |suppliers| && Points(t, suppliers, items, i, product)
  }

  ghost function PointingBy(t: Text, suppliers: seq<SupplierItem>, items: seq<CatalogItem>, product: int,
                            route: Route): set<nat> {
    set i: nat | i < |suppliers| && Points(t, suppliers, items, i, product)
                 && Select(t, suppliers, items, suppliers[i]).route == route
  }

  lemma AtMostOneBy(t: Text, suppliers: seq<SupplierItem>, items: seq<CatalogItem>, product: int, route: Route)
    requires UniqueSkus(suppliers) && UniqueProducts(items)
    ensures |PointingBy(t, suppliers, items, product, route)| <= 1
  {
    var those := PointingBy(t, suppliers, items, product, route);
    if those != {} {
      var x :| x in those;
      forall y | y in those ensures y == x {
        OneSupplierPerRoute(t, suppliers, items, x, y);
      }
      assert those == {x};
    }
    hide Select, UniqueSkus, UniqueProducts;
  }

  lemma PointingSplits(t: Text, suppliers: seq<SupplierItem>, items: seq<CatalogItem>, product: int)
    ensures PointingAt(t, suppliers, items, product)
            == PointingBy(t, suppliers, items, product, BySku) + PointingBy(t, suppliers, items, product, ByEan)
               + PointingBy(t, suppliers, items, product, ByModel)
  {
    hide Select;
  }

  /** Hence at most three suppliers point at a product. */
  lemma AtMostThreePointAtAProduct(t: Text, suppliers: seq<SupplierItem>, items: seq<CatalogItem>, product: int)
    requires UniqueSkus(suppliers) && UniqueProducts(items)
    ensures |PointingAt(t, suppliers, items, product)| <= 3
  {
    var sku := PointingBy(t, suppliers, items, product, BySku);
    var ean := PointingBy(t, suppliers, items, product, ByEan);
    var model := PointingBy(t, suppliers, items, product, ByModel);
    hide PointingBy, PointingAt, UniqueSkus, UniqueProducts;
    AtMostOneBy(t, suppliers, items, product, BySku);
    AtMostOneBy(t, suppliers, items, product, ByEan);
    AtMostOneBy(t, suppliers, items, product, ByModel);
    PointingSplits(t, suppliers, items, product);
    UnionSize(sku + ean, model);
    UnionSize(sku, ean);
  }

  // ------------------------------------------------------------------ conservation

  /** The suppliers whose record carries a product. */
  ghost function Claimants(r: MatchResult): set<nat> {
    set i: nat | i < |r.matches| && r.matches[i].product.Some?
  }

  lemma {:induction false} FirstToPoint(t: Text, suppliers: seq<SupplierItem>, items: seq<CatalogItem>, i: nat,
                                        product: int)
      returns (first: nat)
    requires i <= |suppliers| && Claimed(t, suppliers, items, i, product)
    ensures first < i && Points(t, suppliers, items, first, product)
    ensures !Claimed(t, suppliers, items, first, product)
  {
    var j :| 0 <= j < i && Points(t, suppliers, items, j, product);
    if Claimed(t, suppliers, items, j, product) {
      first := FirstToPoint(t, suppliers, items, j, product);
    } else {
      first := j;
    }
    hide Points;
  }

  /** A record carries a product exactly when its supplier is the first to point at it. */
  lemma ProductMeansFirst(t: Text, suppliers: seq<SupplierItem>, items: seq<CatalogItem>, r: MatchResult, i: nat,
                          product: int)
    requires IsMatching(t, suppliers, items, r) && i < |suppliers|
    ensures r.matches[i].product == Some(product) <==>
              Points(t, suppliers, items, i, product) && !Claimed(t, suppliers, items, i, product)
  {
    hide Select, Claimed, Lists, Unclaimed;
  }

  /** No product is in two records. */
  lemma ProductsAreDistinct(t: Text, suppliers: seq<SupplierItem>, items: seq<CatalogItem>, r: MatchResult, i: nat,
                            j: nat)
    requires IsMatching(t, suppliers, items, r) && i < |suppliers| && j < |suppliers|
    requires r.matches[i].product.Some? && r.matches[i].product == r.matches[j].product
    ensures i == j
  {
    var p := r.matches[i].product.value;
    ProductMeansFirst(t, suppliers, items, r, i, p);
    ProductMeansFirst(t, suppliers, items, r, j, p);
    hide IsMatching, Points;
  }

  /** Every product of the catalogue is in one record or missing, and nothing else is. */
  lemma CatalogueIsConserved(t: Text, suppliers: seq<SupplierItem>, items: seq<CatalogItem>, r: MatchResult)
    requires IsMatching(t, suppliers, items, r) && UniqueProducts(items)
    ensures |r.missing| + |Claimants(r)| == |items|
    ensures forall i | i in Claimants(r) :: r.matches[i].product.value !in r.missing
                                            && exists c | c in items :: c.productId == r.matches[i].product.value
  {
    var all := set c | c in items :: c.productId;
    var out := Unclaimed(t, suppliers, items);
    var taken := ProductsOf(r);
    forall p | p in taken ensures p in all && p !in out {
      var i :| i in Claimants(r) && r.matches[i].product.value == p;
      ProductMeansFirst(t, suppliers, items, r, i, p);
      PointsIntoCatalogue(t, suppliers, items, i, p);
      assert Claimed(t, suppliers, items, |suppliers|, p);
    }
    forall p | p in all && p !in out ensures p in taken {
      var i := FirstToPoint(t, suppliers, items, |suppliers|, p);
      ProductMeansFirst(t, suppliers, items, r, i, p);
      assert i in Claimants(r) && r.matches[i].product.value == p;
    }
    assert all == out + taken && out !! taken;
    TakenSize(t, suppliers, items, r, Claimants(r));
    CatalogueSize(items);
    ListingSize(r.missing, out, AtMost);
    forall i | i in Claimants(r)
      ensures r.matches[i].product.value !in r.missing
              && exists c | c in items :: c.productId == r.matches[i].product.value
    {
      assert r.matches[i].product.value in taken;
    }
    hide Select, Points, UniqueProducts;
  }

  ghost function ProductsOf(r: MatchResult): set<int> {
    set i | i in Claimants(r) :: ProductAt(r, i)
  }

  lemma PointsIntoCatalogue(t: Text, suppliers: seq<SupplierItem>, items: seq<CatalogItem>, i: nat, product: int)
    requires i < |suppliers| && Points(t, suppliers, items, i, product)
    ensures exists c | c in items :: c.productId == product
  {
    PickMeans(t, suppliers, items, suppliers[i]);
    hide Select;
  }

  function ProductAt(r: MatchResult, i: nat): int {
    if i < |r.matches| && r.matches[i].product.Some? then r.matches[i].product.value else 0
  }

  lemma {:induction false} TakenSize(t: Text, suppliers: seq<SupplierItem>, items: seq<CatalogItem>, r: MatchResult,
                                     some: set<nat>)
    requires IsMatching(t, suppliers, items, r) && some <= Claimants(r)
    ensures |set i | i in some :: ProductAt(r, i)| == |some|
  {
    if some != {} {
      var x :| x in some;
      TakenSize(t, suppliers, items, r, some - {x});
      forall i | i in some - {x} ensures ProductAt(r, i) != ProductAt(r, x) {
        if ProductAt(r, i) == ProductAt(r, x) {
          ProductsAreDistinct(t, suppliers, items, r, i, x);
        }
      }
      hide IsMatching, Claimants, ProductAt;
      assert (set i | i in some :: ProductAt(r, i)) == (set i | i in some - {x} :: ProductAt(r, i)) + {ProductAt(r, x)};
    }
  }

  lemma CatalogueSize(items: seq<CatalogItem>)
    requires UniqueProducts(items)
    ensures |set c | c in items :: c.productId| == |items|
  {
    var ids := seq(|items|, i requires 0 <= i < |items| => items[i].productId);
    assert Distinct(ids) by {
      assert forall i, j | 0 <= i < j < |items| :: ids[i] == items[i].productId && ids[j] == items[j].productId;
    }
    CardinalityOfElements(ids);
    assert forall i | 0 <= i < |items| :: ids[i] == items[i].productId;
    assert (set c | c in items :: c.productId) == (set p | p in ids);
  }

  lemma ListingSize<T(!new)>(r: seq<T>, s: set<T>, le: (T, T) -> bool)
    requires Lists(r, s, le)
    ensures |r| == |s|
  {
    CardinalityOfElements(r);
    assert (set x | x in r) == s;
  }

  // ------------------------------------------------------------- what a status means

  /** `exact`, and only `exact`, says: no doubt about the supplier's identity, one catalogue item
      with this SKU, nobody claimed it before, and no populated identity field disagrees. */
  lemma ExactMeans(t: Text, suppliers: seq<SupplierItem>, items: seq<CatalogItem>, r: MatchResult, i: nat)
    requires IsMatching(t, suppliers, items, r) && i < |suppliers|
    ensures var s := suppliers[i];
            r.matches[i].status == Exact <==>
              && s.identityWarnings == [] && |Having(t, items, SkuKey(s.sku))| == 1
              && var c := Having(t, items, SkuKey(s.sku))[0];
                 && !Claimed(t, suppliers, items, i, c.productId)
                 && !EanDiffers(t, s, c) && !ModelDiffers(t, s, c) && !ManufacturerDiffers(t, s, c)
    ensures r.matches[i].status == Exact ==> r.matches[i].warnings == [] && r.matches[i].confidence == 1.0
    ensures r.matches[i].status == Exact ==>
              r.matches[i].product == Some(Having(t, items, SkuKey(suppliers[i].sku))[0].productId)
  {
    hide Having, Bearers, Claimed, Lists, Unclaimed;
  }

  /** What the fields of a record say, whatever its status. */
  lemma RecordMeans(t: Text, suppliers: seq<SupplierItem>, items: seq<CatalogItem>, r: MatchResult, i: nat)
    requires IsMatching(t, suppliers, items, r) && i < |suppliers|
    ensures var m, s := r.matches[i], suppliers[i];
            && m.id == s.id && m.sku == s.sku
            && (m.product.None? <==> m.status in {Ambiguous, Unmatched})
            && (m.product.None? <==> m.confidence == 0.0)
            && (m.status == Unmatched <==> Select(t, suppliers, items, s) == Nothing)
            && (m.status == HighConfidence ==> m.confidence == if m.via == EanUnique then 0.95 else 0.9)
            && (m.status == Conflict ==> m.confidence == 0.5 && m.warnings != [] && m.via in {Sku, ModelUnique})
    ensures var m, s := r.matches[i], suppliers[i]; var choice := Select(t, suppliers, items, s);
            m.product.Some? ==>
              && choice.Pick? && m.product == Some(choice.item.productId)
              && (choice.route == BySku <==> m.via == Sku) && (choice.route == ByEan <==> m.via == EanUnique)
              && (EAN_MISMATCH in m.warnings <==> EanDiffers(t, s, choice.item))
              && (MODEL_MISMATCH in m.warnings <==> ModelDiffers(t, s, choice.item))
              && (MANUFACTURER_MISMATCH in m.warnings <==> ManufacturerDiffers(t, s, choice.item))
  {
    hide Select, Claimed, Lists, Unclaimed, EanDiffers, ModelDiffers, ManufacturerDiffers, Dedup;
    WarningTexts();
  }

  lemma WarningTexts()
    ensures EAN_MISMATCH != MODEL_MISMATCH && EAN_MISMATCH != MANUFACTURER_MISMATCH
    ensures MODEL_MISMATCH != MANUFACTURER_MISMATCH
  {
    assert EAN_MISMATCH[0] == 'e' && MODEL_MISMATCH[0] == 'm' && MANUFACTURER_MISMATCH[0] == 'm';
    assert MODEL_MISMATCH[1] == 'o' && MANUFACTURER_MISMATCH[1] == 'a';
  }

  /** A secondary route agrees by construction with the field it matched on: a match on EAN never
      warns of an EAN mismatch, and a match on manufacturer and model warns of nothing else. */
  lemma SecondaryRouteWarnings(t: Text, suppliers: seq<SupplierItem>, items: seq<CatalogItem>, r: MatchResult, i: nat)
    requires IsMatching(t, suppliers, items, r) && i < |suppliers|
    ensures r.matches[i].via == EanUnique ==>
              EAN_MISMATCH !in r.matches[i].warnings && r.matches[i].status == HighConfidence
    ensures r.matches[i].via == ModelUnique ==>
              && (r.matches[i].warnings == [] || r.matches[i].warnings == [EAN_MISMATCH])
              && r.matches[i].status == if r.matches[i].warnings == [] then HighConfidence else Conflict
  {
    var s := suppliers[i];
    var choice := Select(t, suppliers, items, s);
    if choice.Pick? {
      PickMeans(t, suppliers, items, s);
    }
    hide Select, Having, Bearers, Claimed, Lists, Unclaimed;
  }
}
