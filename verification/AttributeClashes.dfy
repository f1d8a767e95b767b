/** When the flattening of an offer overwrites: which value a key holds in the end, and the exact
    condition for two values to ask for one key, without any assumption on names. */
module AttributeClashes {
  import opened Common
  import opened RawAttributes

  /** Where a value stands in the offer. */
  datatype Place = OfferAt(name: string) | TextAt(i: nat) | AttributeAt(i: nat, name: string)

  predicate Has(offer: map<string, string>, nodes: seq<Node>, p: Place) {
    match p
    case OfferAt(a) => a in offer
    case TextAt(i) => i < |nodes|
    case AttributeAt(i, a) => i < |nodes| && a in nodes[i].attributes
  }

  function Value(offer: map<string, string>, nodes: seq<Node>, p: Place): string
    requires Has(offer, nodes, p)
  {
    match p
    case OfferAt(a) => offer[a]
    case TextAt(i) => nodes[i].text
    case AttributeAt(i, a) => nodes[i].attributes[a]
  }

  function KeyFor(bases: seq<string>, p: Place): string
    requires p.OfferAt? || p.i < |bases|
  {
    match p
    case OfferAt(a) => AttributeKey("", a)
    case TextAt(i) => KeyAt(bases, i)
    case AttributeAt(i, a) => AttributeKey(KeyAt(bases, i), a)
  }

  /** The order in which the places are written. */
  function Rank(p: Place): nat {
    match p
    case OfferAt(_) => 0
    case TextAt(i) => 2 * i + 1
    case AttributeAt(i, _) => 2 * i + 2
  }

  ghost predicate Asks(offer: map<string, string>, nodes: seq<Node>, bases: seq<string>, p: Place, key: string)
    requires |bases| == |nodes|
  {
    Has(offer, nodes, p) && KeyFor(bases, p) == key
  }

  // ----------------------------------------------------------------- keys, spelled out

  lemma {:induction false} OccurrencesMean(bases: seq<string>, base: string)
    ensures Occurrences(bases, base) == |set j: nat | j < |bases| && bases[j] == base|
  {
    if bases != [] {
      var front, last := bases[..|bases| - 1], bases[|bases| - 1];
      OccurrencesMean(front, base);
      var was := set j: nat | j < |front| && front[j] == base;
      assert (set j: nat | j < |bases| && bases[j] == base) == if last == base then was + {|front|} else was;
    }
  }

  /** The first element of a base has the base for its key, and the n-th has a number sign and `n` behind it;
      an attribute has an at sign and its name behind the key of its element, or behind nothing. */
  lemma KeysMean(bases: seq<string>, p: Place)
    requires p.OfferAt? || p.i < |bases|
    ensures p.OfferAt? ==> KeyFor(bases, p) == "@" + p.name
    ensures p.AttributeAt? ==> KeyFor(bases, p) == KeyFor(bases, TextAt(p.i)) + "@" + p.name
    ensures p.TextAt? ==>
              var n := |set j: nat | j <= p.i && bases[j] == bases[p.i]|;
              var key, base := KeyFor(bases, p), bases[p.i];
              if n == 1 then key == base
              else
                var k := |base| + 1;
                |key| > k && key[..k] == base + "#" && NumberOf(key[k..]) == n && key[k] != '0'
                && forall i | k <= i < |key| :: '0' <= key[i] <= '9'
  {
    if p.OfferAt? {
      assert AttributeKey("", p.name) == "@" + p.name;
    }
    if p.TextAt? {
      var before, base := bases[..p.i + 1], bases[p.i];
      OccurrencesMean(before, base);
      assert (set j: nat | j < |before| && before[j] == base) == set j: nat | j <= p.i && bases[j] == bases[p.i];
      assert p.i in set j: nat | j <= p.i && bases[j] == bases[p.i];
      var n := Occurrences(before, base);
      DecimalMeans(n);
      hide Decimal, NumberOf, Occurrences;
      var key, k := Numbered(base, n), |base| + 1;
      if n != 1 {
        assert key == base + "#" + Decimal(n);
        assert key[..k] == base + "#" && key[k..] == Decimal(n);
      }
    }
  }

  /** What an element asks for: its tag; for a `param`, its stripped name, behind `param:` and with a
      stand-in for none in the legacy adapter.  The other adapter refuses a `param` without name. */
  lemma BasesMean(adapter: Adapter, strip: string -> string, nodes: seq<Node>, i: nat)
    requires i < |nodes|
    ensures var node, base := nodes[i], Bases(adapter, strip, nodes)[i];
            var name := strip(if "name" in node.attributes then node.attributes["name"] else "");
            && (node.tag != "param" ==> base == node.tag)
            && (node.tag == "param" && adapter == Electrozone ==> base == name)
            && (node.tag == "param" && adapter == Legacy ==> base == "param:" + if name == "" then "unnamed" else name)
            && (!Acceptable(adapter, strip, node) <==> adapter == Electrozone && node.tag == "param" && name == "")
  {}

  // ------------------------------------------------------------- the last one wins

  lemma KeyOfPrefix(bases: seq<string>, m: nat, p: Place)
    requires m <= |bases| && (p.OfferAt? || p.i < m)
    ensures KeyFor(bases[..m], p) == KeyFor(bases, p)
  {
    if !p.OfferAt? { assert bases[..m][..p.i + 1] == bases[..p.i + 1]; }
    hide Occurrences, Numbered;
  }

  /** Places of all but the last element. */
  lemma FrontPlaces(offer: map<string, string>, nodes: seq<Node>, bases: seq<string>, p: Place, key: string)
    requires |bases| == |nodes| > 0
    ensures var m := |nodes| - 1;
            && (Asks(offer, nodes[..m], bases[..m], p, key) ==> Asks(offer, nodes, bases, p, key))
            && (Asks(offer, nodes, bases, p, key) && (p.OfferAt? || p.i < m) ==>
                  Asks(offer, nodes[..m], bases[..m], p, key))
  {
    var m := |nodes| - 1;
    if p.OfferAt? || p.i < m { KeyOfPrefix(bases, m, p); }
    hide KeyFor;
  }

  /** Every key of the dictionary belongs to a place, and holds the value that was written last. */
  lemma {:induction false} LastWins(offer: map<string, string>, nodes: seq<Node>, bases: seq<string>, key: string)
      returns (p: Place)
    requires |bases| == |nodes| && key in Flat(offer, nodes, bases)
    ensures Asks(offer, nodes, bases, p, key) && Flat(offer, nodes, bases)[key] == Value(offer, nodes, p)
    ensures forall q | Asks(offer, nodes, bases, q, key) :: Rank(q) <= Rank(p)
  {
    hide Occurrences, Numbered, Prefixed, AttributeKey;
    if nodes == [] {
      var a := PrefixedOnly("", offer, key);
      PrefixedAt("", offer, a);
      p := OfferAt(a);
    } else {
      var m := |nodes| - 1;
      var own := KeyAt(bases, m);
      if key in Prefixed(own, nodes[m].attributes) {
        var a := PrefixedOnly(own, nodes[m].attributes, key);
        PrefixedAt(own, nodes[m].attributes, a);
        p := AttributeAt(m, a);
      } else {
        forall a | a in nodes[m].attributes ensures AttributeKey(own, a) != key {
          PrefixedAt(own, nodes[m].attributes, a);
        }
        if key == own {
          p := TextAt(m);
        } else {
          p := LastWins(offer, nodes[..m], bases[..m], key);
          FrontPlaces(offer, nodes, bases, p, key);
          forall q | Asks(offer, nodes, bases, q, key) ensures Rank(q) <= Rank(p) {
            FrontPlaces(offer, nodes, bases, q, key);
          }
        }
      }
    }
  }

  /** No key is missing. */
  lemma {:induction false} EveryPlaceHasAKey(offer: map<string, string>, nodes: seq<Node>, bases: seq<string>, p: Place)
    requires |bases| == |nodes| && Has(offer, nodes, p)
    ensures KeyFor(bases, p) in Flat(offer, nodes, bases)
  {
    hide Occurrences, Numbered, Prefixed, AttributeKey;
    if p.OfferAt? && nodes == [] {
      PrefixedAt("", offer, p.name);
    } else {
      var m := |nodes| - 1;
      if p.OfferAt? || p.i < m {
        EveryPlaceHasAKey(offer, nodes[..m], bases[..m], p);
        KeyOfPrefix(bases, m, p);
      } else if p.AttributeAt? {
        PrefixedAt(KeyAt(bases, m), nodes[m].attributes, p.name);
      }
    }
  }

  /** Every value is found at its own key if and only if values that ask for one key are equal. */
  lemma LosslessIff(offer: map<string, string>, nodes: seq<Node>, bases: seq<string>)
    requires |bases| == |nodes|
    ensures (forall p | Has(offer, nodes, p) ::
               KeyFor(bases, p) in Flat(offer, nodes, bases)
               && Flat(offer, nodes, bases)[KeyFor(bases, p)] == Value(offer, nodes, p))
            <==> (forall p, q | Has(offer, nodes, p) && Has(offer, nodes, q) && KeyFor(bases, p) == KeyFor(bases, q) ::
                    Value(offer, nodes, p) == Value(offer, nodes, q))
  {
    hide Flat, KeyFor, Value;
    forall p | Has(offer, nodes, p) ensures KeyFor(bases, p) in Flat(offer, nodes, bases) {
      EveryPlaceHasAKey(offer, nodes, bases, p);
    }
    if forall p, q | Has(offer, nodes, p) && Has(offer, nodes, q) && KeyFor(bases, p) == KeyFor(bases, q) ::
        Value(offer, nodes, p) == Value(offer, nodes, q)
    {
      forall p | Has(offer, nodes, p) ensures Flat(offer, nodes, bases)[KeyFor(bases, p)] == Value(offer, nodes, p) {
        var q := LastWins(offer, nodes, bases, KeyFor(bases, p));
      }
    }
  }

  // ---------------------------------------------------- which values share a key

  /** Two values of the offer ask for one key. */
  ghost predicate Shared(offer: map<string, string>, nodes: seq<Node>, bases: seq<string>)
    requires |bases| == |nodes|
  {
    exists p, q :: p != q && Has(offer, nodes, p) && Has(offer, nodes, q) && KeyFor(bases, p) == KeyFor(bases, q)
  }

  /** The key of a repeated element, unless it is the first. */
  predicate Repeats(bases: seq<string>, key: string, b: string, n: nat) {
    b in bases && 2 <= n <= Occurrences(bases, b) && key == b + "#" + Decimal(n)
  }

  ghost predicate IsTextKey(bases: seq<string>, key: string) {
    key in bases || exists b, n :: Repeats(bases, key, b, n)
  }

  /** An element is called what a repeated element is numbered to. */
  ghost predicate NumberClash(bases: seq<string>) {
    exists b, n :: b in bases && 2 <= n <= Occurrences(bases, b) && b + "#" + Decimal(n) in bases
  }

  /** An attribute is flattened to the key of an element. */
  ghost predicate AttributeClash(offer: map<string, string>, nodes: seq<Node>, bases: seq<string>)
    requires |bases| == |nodes|
  {
    || (exists a :: a in offer && IsTextKey(bases, "@" + a))
    || exists i, a :: 0 <= i < |nodes| && a in nodes[i].attributes && IsTextKey(bases, KeyAt(bases, i) + "@" + a)
  }

  /** One element's key continues another's with `@x`, and the other has an attribute `x@c` where the
      one has `c`. */
  ghost predicate NestedClash(offer: map<string, string>, nodes: seq<Node>, bases: seq<string>)
    requires |bases| == |nodes|
  {
    exists i, x, c :: 0 <= i < |nodes| && c in nodes[i].attributes
        && NestedUnder(offer, nodes, bases, KeyAt(bases, i), x, c)
  }

  ghost predicate NestedUnder(offer: map<string, string>, nodes: seq<Node>, bases: seq<string>, key: string,
                              x: string, c: string)
    requires |bases| == |nodes|
  {
    || (key == "@" + x && x + "@" + c in offer)
    || exists j :: 0 <= j < |nodes| && key == KeyAt(bases, j) + "@" + x && x + "@" + c in nodes[j].attributes
  }

  lemma NumberAt(bases: seq<string>, i: nat)
    requires i < |bases|
    ensures var n := Occurrences(bases[..i + 1], bases[i]); 1 <= n <= Occurrences(bases, bases[i])
  {
    OccurrencesGrow(bases, i + 1, bases[i]);
    assert bases[..i + 1][..i] == bases[..i];
  }

  /** The n-th element with a base is there. */
  lemma {:induction false} NthElement(bases: seq<string>, b: string, n: nat) returns (i: nat)
    requires 1 <= n <= Occurrences(bases, b)
    ensures i < |bases| && IsElement(bases, i, b, n)
  {
    var m := |bases| - 1;
    if n <= Occurrences(bases[..m], b) {
      i := NthElement(bases[..m], b, n);
      assert bases[..m][..i + 1] == bases[..i + 1];
    } else {
      i := m;
      assert bases[..m + 1] == bases;
    }
  }

  lemma {:induction false} OccursIn(bases: seq<string>, b: string)
    ensures Occurrences(bases, b) >= 1 <==> b in bases
  {
    if bases != [] {
      OccursIn(bases[..|bases| - 1], b);
      assert bases == bases[..|bases| - 1] + [bases[|bases| - 1]];
    }
  }

  /** The element keys, read off the bases alone. */
  lemma TextKeyIff(bases: seq<string>, key: string)
    ensures IsTextKey(bases, key) <==> exists i :: 0 <= i < |bases| && KeyAt(bases, i) == key
  {
    if key in bases {
      OccursIn(bases, key);
      var i := NthElement(bases, key, 1);
      assert KeyAt(bases, i) == key;
    }
    if b, n :| Repeats(bases, key, b, n) {
      var i := NthElement(bases, b, n);
      assert KeyAt(bases, i) == key;
    }
    forall i | 0 <= i < |bases| && KeyAt(bases, i) == key ensures IsTextKey(bases, key) {
      NumberAt(bases, i);
      var n := Occurrences(bases[..i + 1], bases[i]);
      assert n > 1 ==> Repeats(bases, key, bases[i], n);
    }
    hide Occurrences, Decimal;
  }

  /** What follows the last separator is determined. */
  lemma SplitAtLast(a: string, b: string, x: string, y: string, c: char)
    requires Free(x, c) && Free(y, c) && a + [c] + x == b + [c] + y
    ensures a == b && x == y
  {
    var s := a + [c] + x;
    assert s[|a|] == c && s[|b|] == c;
    assert forall i | |a| < i < |s| :: s[i] == x[i - |a| - 1];
    assert forall i | |b| < i < |s| :: s[i] == y[i - |b| - 1];
    assert |a| == |b|;
    assert a == s[..|a|] && b == s[..|b|];
    assert x == s[|a| + 1..] && y == s[|b| + 1..];
  }

  lemma SameNumbered(a: string, m: nat, b: string, n: nat)
    requires m > 1 && n > 1 && a + "#" + Decimal(m) == b + "#" + Decimal(n)
    ensures a == b && m == n
  {
    DecimalDigits(m);
    DecimalDigits(n);
    SplitAtLast(a, b, Decimal(m), Decimal(n), '#');
    DecimalInjective(m, n);
  }

  /** Two elements share a key if and only if one is called what another is numbered to. */
  lemma ElementsShareIff(bases: seq<string>)
    ensures (exists i, j :: 0 <= i < j < |bases| && KeyAt(bases, i) == KeyAt(bases, j)) <==> NumberClash(bases)
  {
    if b, n :| b in bases && 2 <= n <= Occurrences(bases, b) && b + "#" + Decimal(n) in bases {
      var key := b + "#" + Decimal(n);
      OccursIn(bases, key);
      var i := NthElement(bases, b, n);
      var j := NthElement(bases, key, 1);
      assert |key| > |b| && KeyAt(bases, i) == key && KeyAt(bases, j) == key && i != j;
      assert i < j || j < i;
    }
    forall i, j | 0 <= i < j < |bases| && KeyAt(bases, i) == KeyAt(bases, j) ensures NumberClash(bases) {
      TwoElements(bases, i, j);
    }
    hide Occurrences, Decimal, NumberClash, KeyAt;
  }

  lemma TwoElements(bases: seq<string>, i: nat, j: nat)
    requires i < |bases| && j < |bases| && i != j && KeyAt(bases, i) == KeyAt(bases, j)
    ensures NumberClash(bases)
  {
    var m, n := Occurrences(bases[..i + 1], bases[i]), Occurrences(bases[..j + 1], bases[j]);
    NumberAt(bases, i);
    NumberAt(bases, j);
    hide Occurrences, Decimal;
    if bases[i] == bases[j] && m == n {
      ElementIsUnique(bases, i, j, bases[i], m);
      assert false;
    } else if m == 1 {
      assert n > 1 && bases[j] + "#" + Decimal(n) in bases;
    } else if n == 1 {
      assert bases[i] + "#" + Decimal(m) in bases;
    } else {
      SameNumbered(bases[i], m, bases[j], n);
      assert false;
    }
  }

  lemma TwoPlaces(offer: map<string, string>, nodes: seq<Node>, bases: seq<string>, p: Place, q: Place)
    requires |bases| == |nodes| && p != q && Has(offer, nodes, p) && Has(offer, nodes, q)
    requires KeyFor(bases, p) == KeyFor(bases, q)
    ensures Shared(offer, nodes, bases)
  {}

  lemma ClashesShare(offer: map<string, string>, nodes: seq<Node>, bases: seq<string>)
    requires |bases| == |nodes|
    requires NumberClash(bases) || AttributeClash(offer, nodes, bases) || NestedClash(offer, nodes, bases)
    ensures Shared(offer, nodes, bases)
  {
    hide KeyAt, IsTextKey, NumberClash, Shared, NestedClash;
    if NumberClash(bases) {
      ElementsShareIff(bases);
      var i, j :| 0 <= i < j < |bases| && KeyAt(bases, i) == KeyAt(bases, j);
      TwoPlaces(offer, nodes, bases, TextAt(i), TextAt(j));
    } else if a :| a in offer && IsTextKey(bases, "@" + a) {
      TextKeyIff(bases, "@" + a);
      var i :| 0 <= i < |bases| && KeyAt(bases, i) == "@" + a;
      TwoPlaces(offer, nodes, bases, OfferAt(a), TextAt(i));
    } else if i, a :| 0 <= i < |nodes| && a in nodes[i].attributes && IsTextKey(bases, KeyAt(bases, i) + "@" + a) {
      TextKeyIff(bases, KeyAt(bases, i) + "@" + a);
      var j :| 0 <= j < |bases| && KeyAt(bases, j) == KeyAt(bases, i) + "@" + a;
      TwoPlaces(offer, nodes, bases, AttributeAt(i, a), TextAt(j));
    } else {
      NestedShare(offer, nodes, bases);
    }
  }

  lemma NestedShare(offer: map<string, string>, nodes: seq<Node>, bases: seq<string>)
    requires |bases| == |nodes| && NestedClash(offer, nodes, bases)
    ensures Shared(offer, nodes, bases)
  {
    hide KeyAt, Shared;
    var i, x, c :| 0 <= i < |nodes| && c in nodes[i].attributes
        && NestedUnder(offer, nodes, bases, KeyAt(bases, i), x, c);
    var a, key := x + "@" + c, KeyAt(bases, i);
    if key == "@" + x && a in offer {
      assert "" + "@" + a == key + "@" + c;
      TwoPlaces(offer, nodes, bases, OfferAt(a), AttributeAt(i, c));
    } else {
      var j :| 0 <= j < |nodes| && key == KeyAt(bases, j) + "@" + x && a in nodes[j].attributes;
      assert KeyAt(bases, j) + "@" + a == key + "@" + c;
      assert |a| > |c|;
      TwoPlaces(offer, nodes, bases, AttributeAt(j, a), AttributeAt(i, c));
    }
  }

  lemma KeysAreNotEmpty(bases: seq<string>, i: nat)
    requires i < |bases| && bases[i] != ""
    ensures KeyAt(bases, i) != ""
  {
    hide Decimal, Occurrences;
  }

  /** Two attributes, one under a key that is no longer than the other's. */
  lemma AttributesNest(short: string, a: string, long: string, c: string) returns (x: string)
    requires short + "@" + a == long + "@" + c && |short| < |long|
    ensures long == short + "@" + x && a == x + "@" + c
  {
    var s := long + "@" + c;
    assert s == short + "@" + a;
    x := long[|short| + 1..];
    assert s[..|long|] == long && s[|short|] == '@' && s[..|short|] == short;
    assert long[..|short|] == short && long[|short|] == '@';
    assert long == short + "@" + x;
    assert short + "@" + a == short + "@" + (x + "@" + c);
    assert a == s[|short| + 1..];
  }

  lemma SameKeyLength(k: string, a: string, l: string, c: string)
    requires k + "@" + a == l + "@" + c && |k| == |l|
    ensures k == l && a == c
  {
    assert k == (k + "@" + a)[..|k|] && l == (l + "@" + c)[..|l|];
    assert a == (k + "@" + a)[|k| + 1..] && c == (l + "@" + c)[|l| + 1..];
  }

  lemma TextShares(offer: map<string, string>, nodes: seq<Node>, bases: seq<string>, i: nat, q: Place)
    requires |bases| == |nodes| && i < |nodes| && q != TextAt(i)
    requires Has(offer, nodes, q) && KeyFor(bases, TextAt(i)) == KeyFor(bases, q)
    ensures NumberClash(bases) || AttributeClash(offer, nodes, bases)
  {
    hide KeyAt, NumberClash, IsTextKey;
    match q
    case TextAt(j) => TwoElements(bases, i, j);
    case OfferAt(a) =>
      TextKeyIff(bases, "@" + a);
      assert KeyAt(bases, i) == "@" + a;
    case AttributeAt(j, a) =>
      TextKeyIff(bases, KeyAt(bases, j) + "@" + a);
      assert KeyAt(bases, i) == KeyAt(bases, j) + "@" + a;
  }

  /** Element `j`'s attribute `c` against attribute `a` of a holder with a shorter key. */
  lemma ShorterKeyNests(offer: map<string, string>, nodes: seq<Node>, bases: seq<string>, short: string, a: string,
                        j: nat, c: string)
    requires |bases| == |nodes| && j < |nodes| && c in nodes[j].attributes && |short| < |KeyAt(bases, j)|
    requires short + "@" + a == KeyAt(bases, j) + "@" + c
    requires (short == "" && a in offer)
             || exists i :: 0 <= i < |nodes| && short == KeyAt(bases, i) && a in nodes[i].attributes
    ensures NestedClash(offer, nodes, bases)
  {
    hide KeyAt;
    var x := AttributesNest(short, a, KeyAt(bases, j), c);
    if short == "" && a in offer {
      assert KeyAt(bases, j) == "@" + x;
    }
    assert NestedUnder(offer, nodes, bases, KeyAt(bases, j), x, c);
  }

  lemma AttributesShare(offer: map<string, string>, nodes: seq<Node>, bases: seq<string>, p: Place, q: Place)
    requires |bases| == |nodes| && forall i | 0 <= i < |bases| :: bases[i] != ""
    requires p != q && !p.TextAt? && q.AttributeAt? && Has(offer, nodes, p) && Has(offer, nodes, q)
    requires KeyFor(bases, p) == KeyFor(bases, q)
    ensures NumberClash(bases) || NestedClash(offer, nodes, bases)
  {
    KeysAreNotEmpty(bases, q.i);
    hide KeyAt, NumberClash, NestedClash;
    var k, l := if p.OfferAt? then "" else KeyAt(bases, p.i), KeyAt(bases, q.i);
    assert k + "@" + p.name == l + "@" + q.name;
    if |k| < |l| {
      ShorterKeyNests(offer, nodes, bases, k, p.name, q.i, q.name);
    } else if |l| < |k| {
      assert l + "@" + q.name == KeyAt(bases, p.i) + "@" + p.name;
      ShorterKeyNests(offer, nodes, bases, l, q.name, p.i, p.name);
    } else {
      SameKeyLength(k, p.name, l, q.name);
      TwoElements(bases, p.i, q.i);
    }
  }

  /** Two values share a key if and only if an element is called what a repeated element is numbered
      to, or an attribute is flattened to the key of an element, or two attributes are nested. */
  lemma SharedIff(offer: map<string, string>, nodes: seq<Node>, bases: seq<string>)
    requires |bases| == |nodes| && forall i | 0 <= i < |bases| :: bases[i] != ""
    ensures Shared(offer, nodes, bases) <==>
              NumberClash(bases) || AttributeClash(offer, nodes, bases) || NestedClash(offer, nodes, bases)
  {
    hide NumberClash, AttributeClash, NestedClash, KeyAt;
    if NumberClash(bases) || AttributeClash(offer, nodes, bases) || NestedClash(offer, nodes, bases) {
      ClashesShare(offer, nodes, bases);
    }
    forall p, q | p != q && Has(offer, nodes, p) && Has(offer, nodes, q) && KeyFor(bases, p) == KeyFor(bases, q)
      ensures NumberClash(bases) || AttributeClash(offer, nodes, bases) || NestedClash(offer, nodes, bases)
    {
      if p.TextAt? {
        TextShares(offer, nodes, bases, p.i, q);
      } else if q.TextAt? {
        TextShares(offer, nodes, bases, q.i, p);
      } else if q.AttributeAt? {
        AttributesShare(offer, nodes, bases, p, q);
      } else if p.AttributeAt? {
        AttributesShare(offer, nodes, bases, q, p);
      } else {
        SameTail("", p.name, q.name);
        assert false;
      }
    }
  }

  /** Attribute names as XML has them: neither separator occurs. */
  ghost predicate PlainAttributes(offer: map<string, string>, nodes: seq<Node>) {
    && (forall a | a in offer :: Free(a, '#') && Free(a, '@'))
    && forall i, a | 0 <= i < |nodes| && a in nodes[i].attributes :: Free(a, '#') && Free(a, '@')
  }

  lemma PlainKeyIsNoNumber(key: string, a: string, b: string, n: nat)
    requires Free(a, '#')
    ensures key + "@" + a != b + "#" + Decimal(n)
  {
    DecimalDigits(n);
    var s, t := key + "@" + a, b + "#" + Decimal(n);
    assert s[|key|] == '@' && t[|b|] == '#';
    assert forall k | |key| < k < |s| :: s[k] == a[k - |key| - 1] != '#';
    assert forall k | |b| < k < |t| :: t[k] == Decimal(n)[k - |b| - 1] != '@';
  }

  /** With plain attribute names, the condition is on what the elements are called alone. */
  lemma PlainSharedIff(offer: map<string, string>, nodes: seq<Node>, bases: seq<string>)
    requires |bases| == |nodes| && forall i | 0 <= i < |bases| :: bases[i] != ""
    requires PlainAttributes(offer, nodes)
    ensures Shared(offer, nodes, bases) <==>
              || NumberClash(bases)
              || (exists a :: a in offer && "@" + a in bases)
              || exists i, a :: 0 <= i < |nodes| && a in nodes[i].attributes && KeyAt(bases, i) + "@" + a in bases
  {
    SharedIff(offer, nodes, bases);
    hide Shared, NumberClash, KeyAt, Occurrences, Decimal;
    forall a, b, n | a in offer ensures !Repeats(bases, "@" + a, b, n) {
      PlainKeyIsNoNumber("", a, b, n);
      assert "" + "@" + a == "@" + a;
    }
    forall i, a, b, n | 0 <= i < |nodes| && a in nodes[i].attributes
      ensures !Repeats(bases, KeyAt(bases, i) + "@" + a, b, n)
    {
      PlainKeyIsNoNumber(KeyAt(bases, i), a, b, n);
    }
    forall x: string, c: string ensures !Free(x + "@" + c, '@') { assert (x + "@" + c)[|x|] == '@'; }
    hide Free;
  }

  // ------------------------------------------------------------- what does get lost

  /** A `param` element as an XML parser delivers it. */
  function Param(name: string, more: map<string, string>, text: string): Node {
    Node("param", more["name" := name], text)
  }

  function ParamBase(adapter: Adapter, name: string): string {
    if adapter == Electrozone then name else "param:" + name
  }

  lemma BaseOfParam(adapter: Adapter, strip: string -> string, name: string, more: map<string, string>, text: string)
    requires strip(name) == name != ""
    ensures Base(adapter, strip, Param(name, more, text)) == ParamBase(adapter, name)
    ensures Acceptable(adapter, strip, Param(name, more, text))
  {}

  lemma LongerName(adapter: Adapter, name: string, more: string)
    ensures ParamBase(adapter, name + more) == ParamBase(adapter, name) + more
  {}

  /** The text of element `i` is overwritten by a later place and stands nowhere else. */
  lemma OverwrittenText(offer: map<string, string>, nodes: seq<Node>, bases: seq<string>, i: nat, q: Place)
    requires |bases| == |nodes| && i < |nodes| && Rank(q) > Rank(TextAt(i))
    requires Has(offer, nodes, q) && KeyFor(bases, q) == KeyAt(bases, i)
    requires forall p | Has(offer, nodes, p) && p != TextAt(i) :: Value(offer, nodes, p) != nodes[i].text
    ensures forall key | key in Flat(offer, nodes, bases) :: Flat(offer, nodes, bases)[key] != nodes[i].text
  {
    hide Flat, KeyAt, Has, Value;
    assert Asks(offer, nodes, bases, q, KeyAt(bases, i));
    forall key | key in Flat(offer, nodes, bases) ensures Flat(offer, nodes, bases)[key] != nodes[i].text {
      var p := LastWins(offer, nodes, bases, key);
    }
  }

  /** Three parameters, of which the third is numbered into the name of the second: neither adapter's
      dictionary holds the second text. */
  lemma NumberSignLosesText(adapter: Adapter, strip: string -> string)
    requires strip("a") == "a" && strip("a#2") == "a#2"
    ensures var nodes := [Param("a", map[], "first"), Param("a#2", map[], "second"), Param("a", map[], "third")];
            var flat := Flat(map[], nodes, Bases(adapter, strip, nodes));
            && (forall i | 0 <= i < |nodes| :: Acceptable(adapter, strip, nodes[i]))
            && forall key | key in flat :: flat[key] != "second"
  {
    var nodes := [Param("a", map[], "first"), Param("a#2", map[], "second"), Param("a", map[], "third")];
    var bases := Bases(adapter, strip, nodes);
    var base := ParamBase(adapter, "a");
    LongerName(adapter, "a", "#2");
    assert "a" + "#2" == "a#2";
    BaseOfParam(adapter, strip, "a", map[], "first");
    BaseOfParam(adapter, strip, "a#2", map[], "second");
    BaseOfParam(adapter, strip, "a", map[], "third");
    assert bases == [base, base + "#2", base] by { hide Base, ParamBase, Param; }
    NumberedThrice(base);
    forall p | Has(map[], nodes, p) && p != TextAt(1) ensures Value(map[], nodes, p) != "second" {
      assert "first" != "second" && "third" != "second" && "a"[0] != "second"[0] && "a#2"[0] != "second"[0];
    }
    hide Occurrences, KeyAt, Flat, Bases;
    OverwrittenText(map[], nodes, bases, 1, TextAt(2));
  }

  lemma NumberedThrice(base: string)
    ensures var bases := [base, base + "#2", base]; KeyAt(bases, 1) == KeyAt(bases, 2)
  {
    var bases := [base, base + "#2", base];
    assert bases[..1] == [base] && bases[..2] == [base, base + "#2"] && bases[..3] == bases;
    assert bases[..2][..1] == [base] && bases[..1][..0] == [] && bases[..3][..2] == bases[..2];
    assert Occurrences(bases[..1], base) == 1 && Occurrences(bases[..1], base + "#2") == 0;
    assert Occurrences(bases[..2], base) == 1 && Occurrences(bases[..2], base + "#2") == 1;
    assert Occurrences(bases[..3], base) == 2;
    assert Decimal(2) == "2" && base + "#" + "2" == base + "#2";
  }

  lemma NumberedOnce(base: string)
    ensures var bases := [base + "@unit", base]; KeyAt(bases, 0) == base + "@unit" && KeyAt(bases, 1) == base
  {
    var bases := [base + "@unit", base];
    assert bases[..1] == [base + "@unit"] && bases[..1][..0] == [];
    assert bases[..2] == bases && bases[..2][..1] == bases[..1];
    assert Occurrences(bases[..1], base + "@unit") == 1 && Occurrences(bases[..1], base) == 0;
    assert Occurrences(bases[..2], base) == 1;
  }

  /** Two parameters, of which the second has an attribute that the first is called after. */
  lemma AtSignLosesText(adapter: Adapter, strip: string -> string)
    requires strip("a") == "a" && strip("a@unit") == "a@unit"
    ensures var nodes := [Param("a@unit", map[], "lost"), Param("a", map["unit" := "kg"], "kept")];
            var flat := Flat(map[], nodes, Bases(adapter, strip, nodes));
            && (forall i | 0 <= i < |nodes| :: Acceptable(adapter, strip, nodes[i]))
            && forall key | key in flat :: flat[key] != "lost"
  {
    var nodes := [Param("a@unit", map[], "lost"), Param("a", map["unit" := "kg"], "kept")];
    var bases := Bases(adapter, strip, nodes);
    var base := ParamBase(adapter, "a");
    LongerName(adapter, "a", "@unit");
    assert "a" + "@unit" == "a@unit";
    BaseOfParam(adapter, strip, "a@unit", map[], "lost");
    BaseOfParam(adapter, strip, "a", map["unit" := "kg"], "kept");
    assert bases == [base + "@unit", base] by { hide Base, ParamBase, Param; }
    NumberedOnce(base);
    forall p | Has(map[], nodes, p) && p != TextAt(0) ensures Value(map[], nodes, p) != "lost" {
      assert "kept"[0] != "lost"[0] && "a"[0] != "lost"[0] && "a@unit"[0] != "lost"[0] && "kg"[0] != "lost"[0];
    }
    hide Occurrences, KeyAt, Flat, Bases;
    assert KeyFor(bases, AttributeAt(1, "unit")) == base + "@" + "unit";
    OverwrittenText(map[], nodes, bases, 0, AttributeAt(1, "unit"));
  }
}
