/** Flattening an offer of a supplier feed into one dictionary of raw attributes: repeated
    elements are numbered, and no supplier value may get lost. */
module RawAttributes {
  import opened Common

  datatype Node = Node(tag: string, attributes: map<string, string>, text: string)

  /** The two adapters differ in the key of a `param` element. */
  datatype Adapter = Electrozone | Legacy

  datatype Error = ParamNameRequired

  function NameOf(node: Node): string {
    if "name" in node.attributes then node.attributes["name"] else ""
  }

  /** The key that an element asks for; empty where Electrozone rejects it. */
  function Base(adapter: Adapter, strip: string -> string, node: Node): string {
    if node.tag != "param" then node.tag
    else
      var name := strip(NameOf(node));
      if adapter == Electrozone then name
      else "param:" + (if name == "" then "unnamed" else name)
  }

  function Digit(d: nat): char
    requires d < 10
  {
    ['0', '1', '2', '3', '4', '5', '6', '7', '8', '9'][d]
  }

  function Decimal(n: nat): string {
    if n < 10 then [Digit(n)] else Decimal(n / 10) + [Digit(n % 10)]
  }

  /** The key of the n-th element with this base. */
  function Numbered(base: string, n: nat): string {
    if n == 1 then base else base + "#" + Decimal(n)
  }

  function AttributeKey(key: string, attribute: string): string { key + "@" + attribute }

  // ------------------------------------------------------------- specification

  /** How many of these elements have the base. */
  function Occurrences(bases: seq<string>, base: string): nat {
    if bases == [] then 0
    else Occurrences(bases[..|bases| - 1], base) + (if bases[|bases| - 1] == base then 1 else 0)
  }

  function Bases(adapter: Adapter, strip: string -> string, nodes: seq<Node>): (r: seq<string>)
    ensures |r| == |nodes|
  {
    seq(|nodes|, i requires 0 <= i < |nodes| => Base(adapter, strip, nodes[i]))
  }

  /** The key of element `i`. */
  function KeyAt(bases: seq<string>, i: nat): string
    requires i < |bases|
  {
    Numbered(bases[i], Occurrences(bases[..i + 1], bases[i]))
  }

  lemma SameTail(key: string, a: string, b: string)
    requires AttributeKey(key, a) == AttributeKey(key, b)
    ensures a == b
  {
    assert AttributeKey(key, a)[|key| + 1..] == a;
    assert AttributeKey(key, b)[|key| + 1..] == b;
  }

  ghost function Prefixed(key: string, attributes: map<string, string>): map<string, string> {
    map full | full in FullKeys(key, attributes) :: attributes[full[|key| + 1..]]
  }

  ghost function FullKeys(key: string, attributes: map<string, string>): (r: set<string>)
    ensures forall full | full in r :: |full| > |key| && full[|key| + 1..] in attributes
  {
    assert forall a | a in attributes :: AttributeKey(key, a)[|key| + 1..] == a;
    set a | a in attributes :: AttributeKey(key, a)
  }

  ghost function Flat(offer: map<string, string>, nodes: seq<Node>, bases: seq<string>): map<string, string>
    requires |bases| == |nodes|
  {
    if nodes == [] then Prefixed("", offer)
    else
      var n := |nodes| - 1;
      var key := KeyAt(bases, n);
      Flat(offer, nodes[..n], bases[..n])[key := nodes[n].text] + Prefixed(key, nodes[n].attributes)
  }

  lemma PrefixedAt(key: string, attributes: map<string, string>, a: string)
    ensures a in attributes <==> AttributeKey(key, a) in Prefixed(key, attributes)
    ensures a in attributes ==> Prefixed(key, attributes)[AttributeKey(key, a)] == attributes[a]
  {
    assert AttributeKey(key, a)[|key| + 1..] == a;
    if AttributeKey(key, a) in Prefixed(key, attributes) {
      var b :| b in attributes && AttributeKey(key, b) == AttributeKey(key, a);
      SameTail(key, a, b);
    }
  }

  lemma PrefixedOnly(key: string, attributes: map<string, string>, full: string) returns (a: string)
    requires full in Prefixed(key, attributes)
    ensures a in attributes && full == AttributeKey(key, a)
  {
    a :| a in attributes && full == AttributeKey(key, a);
  }

  // ------------------------------------------------------------------ algorithm

  function Done(attributes: map<string, string>, todo: set<string>): map<string, string> {
    map a | a in attributes && a !in todo :: attributes[a]
  }

  lemma DoneEnds(attributes: map<string, string>)
    ensures Done(attributes, attributes.Keys) == map[] && Done(attributes, {}) == attributes
  {}

  lemma UpdateOfSum(a: map<string, string>, b: map<string, string>, k: string, v: string)
    ensures (a + b)[k := v] == a + b[k := v]
  {}

  lemma AddStep(result: map<string, string>, key: string, attributes: map<string, string>, todo: set<string>, a: string)
    requires a in todo && a in attributes
    ensures (result + Prefixed(key, Done(attributes, todo)))[AttributeKey(key, a) := attributes[a]]
            == result + Prefixed(key, Done(attributes, todo - {a}))
  {
    var before := Done(attributes, todo);
    assert Done(attributes, todo - {a}) == before[a := attributes[a]];
    PrefixedGrows(key, before, a, attributes[a]);
    hide *;
    UpdateOfSum(result, Prefixed(key, before), AttributeKey(key, a), attributes[a]);
  }

  method AddAttributes(result: map<string, string>, key: string, attributes: map<string, string>)
      returns (r: map<string, string>)
    ensures r == result + Prefixed(key, attributes)
  {
    r := result;
    var todo := attributes.Keys;
    DoneEnds(attributes);
    NothingPrefixed(key);
    hide Prefixed, AttributeKey, Done;
    while todo != {}
      invariant todo <= attributes.Keys
      invariant r == result + Prefixed(key, Done(attributes, todo))
      decreases todo
    {
      var a :| a in todo;
      AddStep(result, key, attributes, todo, a);
      todo := todo - {a};
      r := r[AttributeKey(key, a) := attributes[a]];
    }
  }

  lemma NothingPrefixed(key: string)
    ensures Prefixed(key, map[]) == map[]
  {}

  lemma PrefixedGrows(key: string, attributes: map<string, string>, a: string, value: string)
    ensures Prefixed(key, attributes[a := value]) == Prefixed(key, attributes)[AttributeKey(key, a) := value]
  {
    var more := attributes[a := value];
    var x, y := Prefixed(key, more), Prefixed(key, attributes)[AttributeKey(key, a) := value];
    GrownKeys(key, attributes, a, value);
    hide Prefixed, AttributeKey, FullKeys;
    forall full | full in x ensures x[full] == y[full] {
      var b := PrefixedOnly(key, more, full);
      PrefixedAt(key, more, b);
      if b != a {
        PrefixedAt(key, attributes, b);
        if AttributeKey(key, a) == AttributeKey(key, b) { SameTail(key, a, b); }
      }
    }
  }

  lemma GrownKeys(key: string, attributes: map<string, string>, a: string, value: string)
    ensures Prefixed(key, attributes[a := value]).Keys == Prefixed(key, attributes).Keys + {AttributeKey(key, a)}
  {
    assert FullKeys(key, attributes[a := value]) == FullKeys(key, attributes) + {AttributeKey(key, a)};
  }

  /** Electrozone demands a name of every `param`. */
  predicate Acceptable(adapter: Adapter, strip: string -> string, node: Node) {
    adapter == Legacy || node.tag != "param" || strip(NameOf(node)) != ""
  }

  /** The loop body: number the element, store its text and its attributes. */
  method AddNode(result: map<string, string>, counters: map<string, nat>, node: Node, base: string)
      returns (r: map<string, string>, c: map<string, nat>)
    ensures c == counters[base := (if base in counters then counters[base] else 0) + 1]
    ensures r == result[Numbered(base, c[base]) := node.text] + Prefixed(Numbered(base, c[base]), node.attributes)
  {
    hide Prefixed, Numbered;
    c := counters[base := (if base in counters then counters[base] else 0) + 1];
    var key := Numbered(base, c[base]);
    r := AddAttributes(result[key := node.text], key, node.attributes);
  }

  /** `_raw_attributes` of either adapter. */
  method RawAttributes(adapter: Adapter, strip: string -> string, offer: map<string, string>, nodes: seq<Node>)
      returns (r: Result<map<string, string>, Error>)
    ensures r.Ok? <==> forall i | 0 <= i < |nodes| :: Acceptable(adapter, strip, nodes[i])
    ensures r.Ok? ==> r.value == Flat(offer, nodes, Bases(adapter, strip, nodes))
  {
    ghost var bases := Bases(adapter, strip, nodes);
    hide Prefixed, Numbered, AttributeKey, CountersAre, Flat, Occurrences, Base, Bases, Acceptable;
    var result := AddAttributes(map[], "", offer);
    NothingBefore(offer, nodes, bases);
    var counters: map<string, nat> := map[];
    for i := 0 to |nodes|
      invariant forall j | 0 <= j < i :: Acceptable(adapter, strip, nodes[j])
      invariant CountersAre(counters, bases[..i])
      invariant result == Flat(offer, nodes[..i], bases[..i])
    {
      if !Acceptable(adapter, strip, nodes[i]) {
        return Err(ParamNameRequired);
      }
      var base := Base(adapter, strip, nodes[i]);
      BaseAt(adapter, strip, nodes, i);
      StateStep(counters, result, offer, nodes, bases, i);
      result, counters := AddNode(result, counters, nodes[i], base);
    }
    FlatWhole(offer, nodes, bases);
    return Ok(result);
  }

  lemma FlatWhole(offer: map<string, string>, nodes: seq<Node>, bases: seq<string>)
    requires |bases| == |nodes|
    ensures Flat(offer, nodes[..|nodes|], bases[..|nodes|]) == Flat(offer, nodes, bases)
  {
    assert nodes[..|nodes|] == nodes && bases[..|nodes|] == bases;
  }

  lemma BaseAt(adapter: Adapter, strip: string -> string, nodes: seq<Node>, i: nat)
    requires i < |nodes|
    ensures |Bases(adapter, strip, nodes)| == |nodes|
    ensures Bases(adapter, strip, nodes)[i] == Base(adapter, strip, nodes[i])
  {}

  lemma NothingBefore(offer: map<string, string>, nodes: seq<Node>, bases: seq<string>)
    requires |bases| == |nodes|
    ensures CountersAre(map[], bases[..0]) && Flat(offer, nodes[..0], bases[..0]) == map[] + Prefixed("", offer)
  {}

  lemma StateStep(counters: map<string, nat>, result: map<string, string>, offer: map<string, string>,
                  nodes: seq<Node>, bases: seq<string>, i: nat)
    requires |bases| == |nodes| && i < |nodes| && CountersAre(counters, bases[..i])
    requires result == Flat(offer, nodes[..i], bases[..i])
    ensures var n := (if bases[i] in counters then counters[bases[i]] else 0) + 1;
            var key := Numbered(bases[i], n);
            && CountersAre(counters[bases[i] := n], bases[..i + 1])
            && result[key := nodes[i].text] + Prefixed(key, nodes[i].attributes)
               == Flat(offer, nodes[..i + 1], bases[..i + 1])
  {
    CountersStep(counters, bases, i);
    FlatStep(offer, nodes, bases, i);
    hide Prefixed, Numbered, CountersAre, Flat, Occurrences;
  }

  ghost predicate CountersAre(counters: map<string, nat>, bases: seq<string>) {
    forall b: string :: Occurrences(bases, b) == if b in counters then counters[b] else 0
  }

  lemma CountersStep(counters: map<string, nat>, bases: seq<string>, i: nat)
    requires i < |bases| && CountersAre(counters, bases[..i])
    ensures var n := (if bases[i] in counters then counters[bases[i]] else 0) + 1;
            && n == Occurrences(bases[..i + 1], bases[i])
            && CountersAre(counters[bases[i] := n], bases[..i + 1])
  {
    assert bases[..i + 1][..i] == bases[..i];
  }

  lemma FlatStep(offer: map<string, string>, nodes: seq<Node>, bases: seq<string>, i: nat)
    requires |bases| == |nodes| && i < |nodes|
    ensures Flat(offer, nodes[..i + 1], bases[..i + 1])
            == Flat(offer, nodes[..i], bases[..i])[KeyAt(bases, i) := nodes[i].text]
               + Prefixed(KeyAt(bases, i), nodes[i].attributes)
  {
    hide Prefixed, Occurrences, Numbered;
    assert nodes[..i + 1][..i] == nodes[..i] && bases[..i + 1][..i] == bases[..i];
    assert bases[..i + 1][..i + 1] == bases[..i + 1];
  }

  // --------------------------------------------------------------- main theorems

  predicate Free(s: string, c: char) { forall i | 0 <= i < |s| :: s[i] != c }

  /** No element asks for a key that holds one of the two separators. */
  predicate Clean(bases: seq<string>) {
    forall i | 0 <= i < |bases| :: bases[i] != "" && Free(bases[i], '#') && Free(bases[i], '@')
  }

  lemma {:induction false} DecimalDigits(n: nat)
    ensures Decimal(n) != "" && forall i | 0 <= i < |Decimal(n)| :: '0' <= Decimal(n)[i] <= '9'
  {
    if n >= 10 { DecimalDigits(n / 10); }
  }

  /** The value of a text of digits. */
  function NumberOf(s: string): int {
    if s == "" then 0 else 10 * NumberOf(s[..|s| - 1]) + (s[|s| - 1] as int - '0' as int)
  }

  lemma {:induction false} DecimalMeans(n: nat)
    ensures NumberOf(Decimal(n)) == n
    ensures |Decimal(n)| > 1 ==> Decimal(n)[0] != '0'
    ensures forall i | 0 <= i < |Decimal(n)| :: '0' <= Decimal(n)[i] <= '9'
    ensures Decimal(n) != "" && (Decimal(n) == "0" ==> n == 0)
  {
    DecimalDigits(n);
    if n >= 10 {
      DecimalMeans(n / 10);
      var s := Decimal(n);
      assert s[..|s| - 1] == Decimal(n / 10) && s[|s| - 1] == Digit(n % 10);
    }
  }

  /** Decimal numbers are different for different values. */
  lemma {:induction false} DecimalInjective(m: nat, n: nat)
    requires Decimal(m) == Decimal(n)
    ensures m == n
  {
    DecimalDigits(m / 10);
    DecimalDigits(n / 10);
    var s := Decimal(m);
    if m >= 10 && n >= 10 {
      assert Decimal(m / 10) == s[..|s| - 1] == Decimal(n / 10);
      assert Digit(m % 10) == s[|s| - 1] == Digit(n % 10);
      DecimalInjective(m / 10, n / 10);
    }
  }

  /** What precedes the first separator is determined. */
  lemma SplitAt(a: string, b: string, x: string, y: string, c: char)
    requires Free(a, c) && Free(b, c)
    requires a + [c] + x == b + [c] + y
    ensures a == b && x == y
  {
    var s := a + [c] + x;
    assert s[|a|] == c && s[|b|] == c;
    assert forall i | 0 <= i < |a| :: s[i] == a[i];
    assert forall i | 0 <= i < |b| :: s[i] == b[i];
    assert |a| == |b|;
    assert a == s[..|a|] && b == s[..|b|];
    assert x == s[|a| + 1..] && y == s[|b| + 1..];
  }

  lemma NumberedFree(base: string, n: nat)
    requires base != "" && Free(base, '@')
    ensures Numbered(base, n) != "" && Free(Numbered(base, n), '@')
  {
    DecimalDigits(n);
  }

  lemma NumberedInjective(a: string, m: nat, b: string, n: nat)
    requires Free(a, '#') && Free(b, '#') && Numbered(a, m) == Numbered(b, n)
    ensures a == b && m == n
  {
    DecimalDigits(m);
    DecimalDigits(n);
    assert m != 1 ==> Numbered(a, m) == a + ['#'] + Decimal(m) && Numbered(a, m)[|a|] == '#';
    assert n != 1 ==> Numbered(b, n) == b + ['#'] + Decimal(n) && Numbered(b, n)[|b|] == '#';
    if m != 1 && n != 1 {
      SplitAt(a, b, Decimal(m), Decimal(n), '#');
      DecimalInjective(m, n);
    }
    hide Decimal;
  }

  /** Where one value of an offer goes: an attribute of the offer, the text of an element, or an
      attribute of an element, elements being named by base and number. */
  datatype Slot =
    | OfferAttribute(name: string)
    | Text(base: string, n: nat)
    | ElementAttribute(base: string, n: nat, name: string)

  function KeyOf(slot: Slot): string {
    match slot
    case OfferAttribute(a) => AttributeKey("", a)
    case Text(b, n) => Numbered(b, n)
    case ElementAttribute(b, n, a) => AttributeKey(Numbered(b, n), a)
  }

  predicate CleanSlot(slot: Slot) {
    slot.OfferAttribute? || (slot.base != "" && Free(slot.base, '#') && Free(slot.base, '@'))
  }

  /** Different slots get different keys. */
  lemma KeysNeverClash(a: Slot, b: Slot)
    requires CleanSlot(a) && CleanSlot(b) && KeyOf(a) == KeyOf(b)
    ensures a == b
  {
    var key := KeyOf(a);
    var x := if a.OfferAttribute? then "" else Numbered(a.base, a.n);
    var y := if b.OfferAttribute? then "" else Numbered(b.base, b.n);
    if !a.OfferAttribute? { NumberedFree(a.base, a.n); }
    if !b.OfferAttribute? { NumberedFree(b.base, b.n); }
    assert !a.Text? ==> key == x + ['@'] + a.name && key[|x|] == '@';
    assert !b.Text? ==> key == y + ['@'] + b.name && key[|y|] == '@';
    if !a.Text? && !b.Text? {
      SplitAt(x, y, a.name, b.name, '@');
    }
    if !a.OfferAttribute? && !b.OfferAttribute? {
      NumberedInjective(a.base, a.n, b.base, b.n);
    }
    hide Numbered;
  }

  /** Element `i` is the n-th element with base `b`. */
  predicate IsElement(bases: seq<string>, i: nat, b: string, n: nat)
    requires i < |bases|
  {
    bases[i] == b && Occurrences(bases[..i + 1], b) == n
  }

  predicate ElementFills(node: Node, slot: Slot, value: string) {
    match slot
    case OfferAttribute(_) => false
    case Text(_, _) => node.text == value
    case ElementAttribute(_, _, a) => a in node.attributes && node.attributes[a] == value
  }

  /** The offer supplies this value for this slot. */
  ghost predicate Supplies(offer: map<string, string>, nodes: seq<Node>, bases: seq<string>, slot: Slot, value: string)
    requires |bases| == |nodes|
  {
    if slot.OfferAttribute? then slot.name in offer && offer[slot.name] == value
    else exists i | 0 <= i < |nodes| :: IsElement(bases, i, slot.base, slot.n) && ElementFills(nodes[i], slot, value)
  }

  lemma {:induction false} OccurrencesGrow(bases: seq<string>, i: nat, b: string)
    requires i <= |bases|
    ensures Occurrences(bases[..i], b) <= Occurrences(bases, b)
  {
    if i < |bases| {
      OccurrencesGrow(bases[..|bases| - 1], i, b);
      assert bases[..|bases| - 1][..i] == bases[..i];
    } else {
      assert bases[..i] == bases;
    }
  }

  /** No two elements share base and number. */
  lemma ElementIsUnique(bases: seq<string>, i: nat, j: nat, b: string, n: nat)
    requires i < |bases| && j < |bases| && IsElement(bases, i, b, n) && IsElement(bases, j, b, n)
    ensures i == j
  {
    if i < j { EarlierHasSmallerNumber(bases, i, j, b); }
    if j < i { EarlierHasSmallerNumber(bases, j, i, b); }
    hide Occurrences;
  }

  lemma EarlierHasSmallerNumber(bases: seq<string>, i: nat, j: nat, b: string)
    requires i < j < |bases| && bases[j] == b
    ensures Occurrences(bases[..i + 1], b) < Occurrences(bases[..j + 1], b)
  {
    OccurrencesGrow(bases[..j], i + 1, b);
    assert bases[..j][..i + 1] == bases[..i + 1];
    assert bases[..j + 1][..j] == bases[..j];
  }

  /** What the last element adds to what the offer supplies. */
  lemma SuppliesStep(offer: map<string, string>, nodes: seq<Node>, bases: seq<string>, slot: Slot, value: string)
    requires |bases| == |nodes| > 0
    ensures var m := |nodes| - 1;
            Supplies(offer, nodes, bases, slot, value) <==>
              || Supplies(offer, nodes[..m], bases[..m], slot, value)
              || (!slot.OfferAttribute? && IsElement(bases, m, slot.base, slot.n)
                  && ElementFills(nodes[m], slot, value))
  {
    var m := |nodes| - 1;
    forall i | 0 <= i < m && !slot.OfferAttribute?
      ensures IsElement(bases[..m], i, slot.base, slot.n) == IsElement(bases, i, slot.base, slot.n)
    {
      assert bases[..m][..i + 1] == bases[..i + 1];
    }
    hide Occurrences, ElementFills;
  }

  /** The dictionary says exactly what the offer supplies: every slot is found at its own key with
      its own value, and a key that belongs to no supplied slot is not there. */
  lemma {:induction false} NothingIsLost(offer: map<string, string>, nodes: seq<Node>, bases: seq<string>, slot: Slot,
                                         value: string)
    requires |bases| == |nodes| && Clean(bases) && CleanSlot(slot)
    ensures Supplies(offer, nodes, bases, slot, value) <==>
              KeyOf(slot) in Flat(offer, nodes, bases) && Flat(offer, nodes, bases)[KeyOf(slot)] == value
  {
    var key := KeyOf(slot);
    if nodes == [] {
      OfferStep(offer, slot);
    } else {
      var m := |nodes| - 1;
      var b, n := bases[m], Occurrences(bases[..m + 1], bases[m]);
      NothingIsLost(offer, nodes[..m], bases[..m], slot, value);
      SuppliesStep(offer, nodes, bases, slot, value);
      FrontHasNoSuch(offer, nodes, bases, slot, value);
      LastElementStep(Flat(offer, nodes[..m], bases[..m]), nodes[m], b, n, slot);
    }
    hide Prefixed, Occurrences, Supplies, KeyOf, Clean;
  }

  lemma OfferStep(offer: map<string, string>, slot: Slot)
    requires CleanSlot(slot)
    ensures KeyOf(slot) in Prefixed("", offer) <==> slot.OfferAttribute? && slot.name in offer
    ensures slot.OfferAttribute? && slot.name in offer ==> Prefixed("", offer)[KeyOf(slot)] == offer[slot.name]
  {
    if slot.OfferAttribute? {
      PrefixedAt("", offer, slot.name);
    } else if KeyOf(slot) in Prefixed("", offer) {
      var a := PrefixedOnly("", offer, KeyOf(slot));
      KeysNeverClash(slot, OfferAttribute(a));
    }
    hide Prefixed, AttributeKey, Numbered;
  }

  /** The earlier elements supply nothing for the slots of the last one. */
  lemma FrontHasNoSuch(offer: map<string, string>, nodes: seq<Node>, bases: seq<string>, slot: Slot, value: string)
    requires |bases| == |nodes| > 0
    ensures var m := |nodes| - 1;
            !slot.OfferAttribute? && IsElement(bases, m, slot.base, slot.n) ==>
              !Supplies(offer, nodes[..m], bases[..m], slot, value)
  {
    var m := |nodes| - 1;
    if !slot.OfferAttribute? && IsElement(bases, m, slot.base, slot.n) {
      forall i | 0 <= i < m ensures !IsElement(bases[..m], i, slot.base, slot.n) {
        assert bases[..m][..i + 1] == bases[..i + 1];
        EarlierHasSmallerNumber(bases, i, m, slot.base);
      }
    }
    hide Occurrences, ElementFills;
  }

  /** Storing one element changes its own keys only. */
  lemma LastElementStep(front: map<string, string>, node: Node, b: string, n: nat, slot: Slot)
    requires CleanSlot(slot) && CleanSlot(Text(b, n))
    ensures var all := front[Numbered(b, n) := node.text] + Prefixed(Numbered(b, n), node.attributes);
            var key := KeyOf(slot);
            if slot == Text(b, n) then key in all && all[key] == node.text
            else if slot.ElementAttribute? && slot.base == b && slot.n == n && slot.name in node.attributes
            then key in all && all[key] == node.attributes[slot.name]
            else (key in all <==> key in front) && (key in front ==> all[key] == front[key])
  {
    var own, key := Numbered(b, n), KeyOf(slot);
    assert own == KeyOf(Text(b, n));
    if slot.ElementAttribute? && slot.base == b && slot.n == n {
      PrefixedAt(own, node.attributes, slot.name);
    }
    if key in Prefixed(own, node.attributes) {
      var a := PrefixedOnly(own, node.attributes, key);
      KeysNeverClash(slot, ElementAttribute(b, n, a));
    }
    if key == own {
      KeysNeverClash(slot, Text(b, n));
    }
    hide Prefixed, AttributeKey, Numbered;
  }

  /** Two clean offers with the same dictionary are the same, up to how elements with different
      bases are interleaved: same offer attributes, and element for element the same text and attributes. */
  lemma DictionaryDeterminesOffer(offer: map<string, string>, nodes: seq<Node>, bases: seq<string>,
                                  offer': map<string, string>, nodes': seq<Node>, bases': seq<string>, i: nat)
      returns (j: nat)
    requires |bases| == |nodes| && |bases'| == |nodes'| && Clean(bases) && Clean(bases')
    requires Flat(offer, nodes, bases) == Flat(offer', nodes', bases') && i < |nodes|
    ensures offer == offer'
    ensures j < |nodes'| && bases'[j] == bases[i]
    ensures Occurrences(bases'[..j + 1], bases'[j]) == Occurrences(bases[..i + 1], bases[i])
    ensures nodes'[j].text == nodes[i].text && nodes'[j].attributes == nodes[i].attributes
  {
    hide Flat, Occurrences, KeyOf, Clean;
    forall slot, value | CleanSlot(slot)
      ensures Supplies(offer, nodes, bases, slot, value) <==> Supplies(offer', nodes', bases', slot, value)
    {
      NothingIsLost(offer, nodes, bases, slot, value);
      NothingIsLost(offer', nodes', bases', slot, value);
    }
    SameOfferAttributes(offer, nodes, bases, offer', nodes', bases');
    var b, n := bases[i], Occurrences(bases[..i + 1], bases[i]);
    assert CleanSlot(Text(b, n)) by { CleanAt(bases, i); }
    assert IsElement(bases, i, b, n) && ElementFills(nodes[i], Text(b, n), nodes[i].text);
    assert Supplies(offer', nodes', bases', Text(b, n), nodes[i].text);
    j :| 0 <= j < |nodes'| && IsElement(bases', j, b, n) && ElementFills(nodes'[j], Text(b, n), nodes[i].text);
    SameAttributes(offer, nodes, bases, offer', nodes', bases', i, j, b, n);
    SameAttributes(offer', nodes', bases', offer, nodes, bases, j, i, b, n);
    forall a ensures a in nodes[i].attributes <==> a in nodes'[j].attributes {}
  }

  lemma CleanAt(bases: seq<string>, i: nat)
    requires Clean(bases) && i < |bases|
    ensures bases[i] != "" && Free(bases[i], '#') && Free(bases[i], '@')
  {}

  ghost predicate SuppliesSame(offer: map<string, string>, nodes: seq<Node>, bases: seq<string>,
                               offer': map<string, string>, nodes': seq<Node>, bases': seq<string>)
    requires |bases| == |nodes| && |bases'| == |nodes'|
  {
    forall slot, value | CleanSlot(slot) ::
      Supplies(offer, nodes, bases, slot, value) <==> Supplies(offer', nodes', bases', slot, value)
  }

  lemma SameOfferAttributes(offer: map<string, string>, nodes: seq<Node>, bases: seq<string>,
                            offer': map<string, string>, nodes': seq<Node>, bases': seq<string>)
    requires |bases| == |nodes| && |bases'| == |nodes'| && SuppliesSame(offer, nodes, bases, offer', nodes', bases')
    ensures offer == offer'
  {
    forall a | a in offer ensures a in offer' && offer'[a] == offer[a] {
      assert Supplies(offer, nodes, bases, OfferAttribute(a), offer[a]);
    }
    forall a | a in offer' ensures a in offer {
      assert Supplies(offer', nodes', bases', OfferAttribute(a), offer'[a]);
    }
  }

  lemma SameAttributes(offer: map<string, string>, nodes: seq<Node>, bases: seq<string>,
                       offer': map<string, string>, nodes': seq<Node>, bases': seq<string>,
                       i: nat, j: nat, b: string, n: nat)
    requires |bases| == |nodes| && |bases'| == |nodes'| && SuppliesSame(offer, nodes, bases, offer', nodes', bases')
    requires i < |nodes| && j < |nodes'| && CleanSlot(Text(b, n))
    requires IsElement(bases, i, b, n) && IsElement(bases', j, b, n)
    ensures forall a | a in nodes[i].attributes :: a in nodes'[j].attributes
                                                   && nodes'[j].attributes[a] == nodes[i].attributes[a]
  {
    hide IsElement;
    forall a | a in nodes[i].attributes
      ensures a in nodes'[j].attributes && nodes'[j].attributes[a] == nodes[i].attributes[a]
    {
      var slot, value := ElementAttribute(b, n, a), nodes[i].attributes[a];
      assert ElementFills(nodes[i], slot, value);
      assert Supplies(offer, nodes, bases, slot, value);
      var k :| 0 <= k < |nodes'| && IsElement(bases', k, b, n) && ElementFills(nodes'[k], slot, value);
      ElementIsUnique(bases', j, k, b, n);
    }
  }
}
