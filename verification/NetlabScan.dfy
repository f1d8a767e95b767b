/** `scan_netlab_properties`: one pass over the parse events of the properties feed, in a strict
    mode and in a lenient mode that lets undefined property ids through. */
module NetlabScan {
  import opened Common

  /** Element names are strings, except for what an XML library may report as something else. */
  datatype Tag = Name(text: string) | Opaque

  datatype Child = Child(tag: Tag, text: string)

  /** `id` is the stripped attribute, `text` the stripped inner text. */
  datatype Element = Element(tag: Tag, id: string, text: string, children: seq<Child>)

  datatype Event = Start(tag: Tag, date: string) | End(element: Element)

  datatype Observation = Observation(
    item: string,
    property: string,
    name: Option<string>,
    value: string,
    missing: bool,
    undefined: bool)

  datatype Stats = Stats(
    catalogDate: string,
    properties: nat,
    items: nat,
    observations: nat,
    missingObservations: nat,
    unknownIds: nat,
    unknownObservations: nat)

  datatype Error =
    | NotAName | BadRoot | BadDate | BadPropertyId | EmptyPropertyName | DuplicateProperty
    | BadItemId | DuplicateItem | BadChild | DuplicateChild | UnknownProperty
    | Empty | PropertyContainers | ItemContainers | NoDefinitions | NoItems

  // ------------------------------------------------------------- specification

  predicate IsDigit(c: char) { '0' <= c <= '9' }

  /** `[1-9][0-9]*` */
  predicate ItemId(s: string) {
    s != "" && '1' <= s[0] <= '9' && forall i | 0 <= i < |s| :: IsDigit(s[i])
  }

  /** `p[1-9][0-9]*` */
  predicate PropertyId(s: string) { s != "" && s[0] == 'p' && ItemId(s[1..]) }

  /** `dddd-dd-dd dd:dd` */
  predicate CatalogDate(s: string) {
    |s| == 16 && forall i | 0 <= i < 16 ::
      if i == 4 || i == 7 then s[i] == '-'
      else if i == 10 then s[i] == ' '
      else if i == 13 then s[i] == ':'
      else IsDigit(s[i])
  }

  function TagOf(e: Event): Tag { if e.Start? then e.tag else e.element.tag }

  predicate Closes(e: Event, name: string) { e.End? && e.element.tag == Name(name) }

  predicate Defines(e: Event, property: string) { Closes(e, "property") && e.element.id == property }

  predicate Describes(e: Event, item: string) { Closes(e, "item") && e.element.id == item }

  /** How many elements of this name the events close. */
  function Closed(events: seq<Event>, name: string): nat {
    if events == [] then 0
    else Closed(events[..|events| - 1], name) + (if Closes(events[|events| - 1], name) then 1 else 0)
  }

  function Definitions(events: seq<Event>): map<string, string> {
    if events == [] then map[]
    else
      var front, last := Definitions(events[..|events| - 1]), events[|events| - 1];
      if Closes(last, "property") then front[last.element.id := last.element.text] else front
  }

  function Items(events: seq<Event>): set<string> {
    if events == [] then {}
    else
      var front, last := Items(events[..|events| - 1]), events[|events| - 1];
      if Closes(last, "item") then front + {last.element.id} else front
  }

  predicate RootSeen(events: seq<Event>) { exists i | 0 <= i < |events| :: events[i].Start? }

  /** The date on the first element. */
  function RootDate(events: seq<Event>): string {
    if events == [] then "" else if events[0].Start? then events[0].date else RootDate(events[1..])
  }

  function Observe(definitions: map<string, string>, item: string, child: Child): Observation {
    var property := if child.tag.Name? then child.tag.text else "";
    var known := property in definitions;
    Observation(item, property, if known then Some(definitions[property]) else None,
                child.text, child.text == "" || child.text == "-", !known)
  }

  function ObserveAll(definitions: map<string, string>, item: string, children: seq<Child>): seq<Observation> {
    if children == [] then []
    else ObserveAll(definitions, item, children[..|children| - 1])
         + [Observe(definitions, item, children[|children| - 1])]
  }

  /** What a scan emits: every child of every item, with the definitions closed before the item. */
  function Observations(events: seq<Event>): seq<Observation> {
    if events == [] then []
    else
      var front, last := events[..|events| - 1], events[|events| - 1];
      Observations(front)
      + (if Closes(last, "item") then ObserveAll(Definitions(front), last.element.id, last.element.children) else [])
  }

  function CountMissing(os: seq<Observation>): nat {
    if os == [] then 0 else CountMissing(os[..|os| - 1]) + (if os[|os| - 1].missing then 1 else 0)
  }

  function CountUndefined(os: seq<Observation>): nat {
    if os == [] then 0 else CountUndefined(os[..|os| - 1]) + (if os[|os| - 1].undefined then 1 else 0)
  }

  function UndefinedIds(os: seq<Observation>): set<string> {
    set o | o in os && o.undefined :: o.property
  }

  function StatsOf(events: seq<Event>): Stats {
    var os := Observations(events);
    Stats(RootDate(events), Closed(events, "property"), Closed(events, "item"),
          |os|, CountMissing(os), |UndefinedIds(os)|, CountUndefined(os))
  }

  predicate GoodChild(definitions: map<string, string>, children: seq<Child>, i: nat, lenient: bool)
    requires i < |children|
  {
    var tag := children[i].tag;
    && tag.Name? && PropertyId(tag.text)
    && (forall j | 0 <= j < i :: children[j].tag != tag)
    && (lenient || tag.text in definitions)
  }

  predicate GoodItem(definitions: map<string, string>, children: seq<Child>, lenient: bool) {
    forall i | 0 <= i < |children| :: GoodChild(definitions, children, i, lenient)
  }

  /** The event after `before` passes every check. */
  predicate GoodEvent(before: seq<Event>, e: Event, lenient: bool) {
    && TagOf(e).Name?
    && (e.Start? && !RootSeen(before) ==> e.tag == Name("xml_catalog") && CatalogDate(e.date))
    && (Closes(e, "property") ==>
          PropertyId(e.element.id) && e.element.text != "" && e.element.id !in Definitions(before))
    && (Closes(e, "item") ==>
          ItemId(e.element.id) && e.element.id !in Items(before)
          && GoodItem(Definitions(before), e.element.children, lenient))
  }

  ghost predicate GoodEvents(events: seq<Event>, lenient: bool) {
    forall k | 0 <= k < |events| :: GoodEvent(events[..k], events[k], lenient)
  }

  /** The fault of a child that an error names. */
  predicate ChildFault(definitions: map<string, string>, children: seq<Child>, i: nat, lenient: bool, error: Error)
    requires i < |children|
  {
    var tag := children[i].tag;
    match error
    case BadChild => tag.Opaque? || !PropertyId(tag.text)
    case DuplicateChild => exists j | 0 <= j < i :: children[j].tag == tag
    case UnknownProperty => !lenient && tag.Name? && tag.text !in definitions
    case _ => false
  }

  /** The error is about child `i`, and all is well before it. */
  predicate BlamesChild(definitions: map<string, string>, children: seq<Child>, i: nat, lenient: bool, error: Error) {
    && i < |children| && (forall j | 0 <= j < i :: GoodChild(definitions, children, j, lenient))
    && ChildFault(definitions, children, i, lenient, error)
  }

  ghost predicate ItemFault(definitions: map<string, string>, children: seq<Child>, lenient: bool, error: Error) {
    exists i: nat :: BlamesChild(definitions, children, i, lenient, error)
  }

  /** The fault of the event after `before` that an error names. */
  ghost predicate EventFault(before: seq<Event>, e: Event, lenient: bool, error: Error) {
    || (Closes(e, "item") && ItemFault(Definitions(before), e.element.children, lenient, error))
    || match error
    case NotAName => TagOf(e).Opaque?
    case BadRoot => e.Start? && !RootSeen(before) && e.tag != Name("xml_catalog")
    case BadDate => e.Start? && !RootSeen(before) && !CatalogDate(e.date)
    case BadPropertyId => Closes(e, "property") && !PropertyId(e.element.id)
    case EmptyPropertyName => Closes(e, "property") && e.element.text == ""
    case DuplicateProperty => Closes(e, "property") && e.element.id in Definitions(before)
    case BadItemId => Closes(e, "item") && !ItemId(e.element.id)
    case DuplicateItem => Closes(e, "item") && e.element.id in Items(before)
    case _ => false
  }

  /** The error is about event `k`, and all is well before it. */
  ghost predicate Blames(events: seq<Event>, k: nat, lenient: bool, error: Error) {
    && k < |events| && GoodEvents(events[..k], lenient)
    && EventFault(events[..k], events[k], lenient, error)
  }

  /** The fault of the whole feed that an error names. */
  predicate EndingFault(events: seq<Event>, error: Error) {
    match error
    case Empty => !RootSeen(events)
    case PropertyContainers => Closed(events, "properties") != 1
    case ItemContainers => Closed(events, "items") != 1
    case NoDefinitions => Definitions(events) == map[]
    case NoItems => Items(events) == {}
    case _ => false
  }

  predicate GoodEnding(events: seq<Event>) {
    && RootSeen(events)
    && Closed(events, "properties") == 1 && Closed(events, "items") == 1
    && Definitions(events) != map[] && Items(events) != {}
  }

  ghost predicate Accepted(events: seq<Event>, lenient: bool) {
    GoodEvents(events, lenient) && GoodEnding(events)
  }

  // ------------------------------------------------------------------ algorithm

  /** The variables of the event loop. */
  class Scanner {
    const lenient: bool
    var definitions: map<string, string>
    var itemIds: set<string>
    var propertyContainers: nat
    var itemContainers: nat
    var propertyCount: nat
    var itemCount: nat
    var missingCount: nat
    var unknownIds: set<string>
    var unknownCount: nat
    var catalogDate: string
    var rootSeen: bool
    var emitted: seq<Observation>

    constructor (lenient: bool)
      ensures Agrees([]) && this.lenient == lenient
    {
      this.lenient := lenient;
      definitions, itemIds, unknownIds, emitted := map[], {}, {}, [];
      propertyContainers, itemContainers, propertyCount, itemCount, missingCount, unknownCount := 0, 0, 0, 0, 0, 0;
      catalogDate, rootSeen := "", false;
    }

    /** The counters are the counts over what was emitted. */
    ghost predicate Tallies()
      reads `emitted, `missingCount, `unknownIds, `unknownCount
    {
      && missingCount == CountMissing(emitted) && unknownCount == CountUndefined(emitted)
      && unknownIds == UndefinedIds(emitted)
    }

    /** The variables after these events. */
    ghost predicate Agrees(events: seq<Event>)
      reads this
    {
      && Tallies() && emitted == Observations(events)
      && definitions == Definitions(events) && itemIds == Items(events)
      && propertyContainers == Closed(events, "properties") && itemContainers == Closed(events, "items")
      && propertyCount == Closed(events, "property") && itemCount == Closed(events, "item")
      && rootSeen == RootSeen(events) && catalogDate == RootDate(events)
    }

    /** One observation leaves the scanner. */
    method Emit(o: Observation)
      requires Tallies()
      modifies `emitted, `missingCount, `unknownIds, `unknownCount
      ensures Tallies() && emitted == old(emitted) + [o]
    {
      emitted := emitted + [o];
      assert emitted[..|emitted| - 1] == old(emitted);
      if o.undefined {
        unknownIds := unknownIds + {o.property};
        unknownCount := unknownCount + 1;
      }
      if o.missing { missingCount := missingCount + 1; }
    }

    /** The checks on one child, with the tags seen so far. */
    method CheckChild(children: seq<Child>, i: nat, seen: set<string>) returns (error: Option<Error>)
      requires i < |children| && SeenTags(children, i, seen)
      ensures error.None? <==> GoodChild(definitions, children, i, lenient)
      ensures error.Some? ==> ChildFault(definitions, children, i, lenient, error.value)
    {
      var tag := children[i].tag;
      if tag.Opaque? || !PropertyId(tag.text) { return Some(BadChild); }
      if tag.text in seen { return Some(DuplicateChild); }
      if tag.text !in definitions && !lenient { return Some(UnknownProperty); }
      return None;
    }

    /** The loop over the children of an item; what was emitted before an error stays emitted. */
    method ScanItem(item: string, children: seq<Child>) returns (error: Option<Error>)
      requires Tallies()
      modifies `emitted, `missingCount, `unknownIds, `unknownCount
      ensures Tallies()
      ensures error.None? <==> GoodItem(definitions, children, lenient)
      ensures error.Some? ==> ItemFault(definitions, children, lenient, error.value)
      ensures error.None? ==> emitted == old(emitted) + ObserveAll(definitions, item, children)
      ensures emitted <= old(emitted) + ObserveAll(definitions, item, children)
    {
      var seen: set<string> := {};
      hide Tallies, GoodChild, ChildFault, PropertyId, Observe, ObserveAll;
      ObserveNone(definitions, item, children);
      for i := 0 to |children|
        invariant Tallies() && emitted == old(emitted) + ObserveAll(definitions, item, children[..i])
        invariant forall j | 0 <= j < i :: GoodChild(definitions, children, j, lenient)
        invariant SeenTags(children, i, seen)
      {
        ObserveAllPrefix(definitions, item, children, i);
        var error := CheckChild(children, i, seen);
        if error.Some? {
          assert BlamesChild(definitions, children, i, lenient, error.value);
          return error;
        }
        GoodChildIsName(definitions, children, i, lenient);
        seen := seen + {children[i].tag.text};
        ObserveNext(definitions, item, children, i);
        Emit(Observe(definitions, item, children[i]));
      }
      assert children[..|children|] == children;
      return None;
    }

    /** The loop body. */
    method Handle(ghost before: seq<Event>, e: Event) returns (error: Option<Error>)
      requires Agrees(before)
      modifies this
      ensures error.None? <==> GoodEvent(before, e, lenient)
      ensures error.Some? ==> EventFault(before, e, lenient, error.value)
      ensures error.None? ==> Agrees(before + [e])
      ensures emitted <= Observations(before + [e])
    {
      AfterEvent(before, e);
      RootNext(before, e);
      hide GoodItem, ItemFault, CatalogDate, PropertyId, ItemId, Tallies, Closed, Definitions, Items, Observations,
           RootSeen, RootDate, ObserveAll;
      if TagOf(e).Opaque? { return Some(NotAName); }
      match e {
        case Start(tag, date) =>
          if !rootSeen {
            if tag != Name("xml_catalog") { return Some(BadRoot); }
            if !CatalogDate(date) { return Some(BadDate); }
            rootSeen, catalogDate := true, date;
          }
        case End(element) =>
          error := HandleEnd(before, e, element);
          return;
      }
      return None;
    }

    method HandleEnd(ghost before: seq<Event>, ghost e: Event, element: Element) returns (error: Option<Error>)
      requires Agrees(before) && e == End(element) && element.tag.Name?
      modifies this
      ensures error.None? <==> GoodEvent(before, e, lenient)
      ensures error.Some? ==> EventFault(before, e, lenient, error.value)
      ensures error.None? ==> Agrees(before + [e])
      ensures emitted <= Observations(before + [e])
    {
      AfterEvent(before, e);
      RootNext(before, e);
      hide GoodItem, ItemFault, CatalogDate, PropertyId, ItemId, Tallies, Closed, Definitions, Items, Observations,
           RootSeen, RootDate, ObserveAll;
      var tag := element.tag.text;
      if tag == "property" {
        if !PropertyId(element.id) { return Some(BadPropertyId); }
        if element.text == "" { return Some(EmptyPropertyName); }
        if element.id in definitions { return Some(DuplicateProperty); }
        definitions := definitions[element.id := element.text];
        propertyCount := propertyCount + 1;
      } else if tag == "properties" {
        propertyContainers := propertyContainers + 1;
      } else if tag == "item" {
        if !ItemId(element.id) { return Some(BadItemId); }
        if element.id in itemIds { return Some(DuplicateItem); }
        itemIds := itemIds + {element.id};
        var bad := ScanItem(element.id, element.children);
        if bad.Some? { return bad; }
        itemCount := itemCount + 1;
      } else if tag == "items" {
        itemContainers := itemContainers + 1;
      }
      return None;
    }

    /** The checks after the last event. */
    method CheckEnding(ghost events: seq<Event>) returns (error: Option<Error>)
      requires Agrees(events)
      ensures error.None? <==> GoodEnding(events)
      ensures error.Some? ==> EndingFault(events, error.value)
    {
      hide Tallies, Closed, Definitions, Items, Observations, RootSeen, RootDate;
      if !rootSeen { return Some(Empty); }
      if propertyContainers != 1 { return Some(PropertyContainers); }
      if itemContainers != 1 { return Some(ItemContainers); }
      if definitions == map[] { return Some(NoDefinitions); }
      if itemIds == {} { return Some(NoItems); }
      return None;
    }

    function Summary(ghost events: seq<Event>): (stats: Stats)
      requires Agrees(events)
      reads this
      ensures stats == StatsOf(events)
    {
      Stats(catalogDate, propertyCount, itemCount, |emitted|, missingCount, |unknownIds|, unknownCount)
    }
  }

  predicate SeenTags(children: seq<Child>, i: nat, seen: set<string>)
    requires i <= |children|
  {
    && (forall j | 0 <= j < i :: children[j].tag.Name? && children[j].tag.text in seen)
    && (forall s | s in seen :: exists j | 0 <= j < i :: children[j].tag == Name(s))
  }

  lemma GoodChildIsName(definitions: map<string, string>, children: seq<Child>, i: nat, lenient: bool)
    requires i < |children| && GoodChild(definitions, children, i, lenient)
    ensures children[i].tag.Name?
  {}

  lemma ObserveNone(definitions: map<string, string>, item: string, children: seq<Child>)
    ensures ObserveAll(definitions, item, children[..0]) == []
  {}

  lemma ObserveNext(definitions: map<string, string>, item: string, children: seq<Child>, i: nat)
    requires i < |children|
    ensures ObserveAll(definitions, item, children[..i + 1])
            == ObserveAll(definitions, item, children[..i]) + [Observe(definitions, item, children[i])]
  {
    assert children[..i + 1][..i] == children[..i];
  }

  /** Every specification function, one event further. */
  lemma AfterEvent(before: seq<Event>, e: Event)
    ensures var all := before + [e];
            && (forall name :: Closed(all, name) == Closed(before, name) + if Closes(e, name) then 1 else 0)
            && Definitions(all) == (if Closes(e, "property") then Definitions(before)[e.element.id := e.element.text]
                                    else Definitions(before))
            && Items(all) == (if Closes(e, "item") then Items(before) + {e.element.id} else Items(before))
            && Observations(all) ==
                 if Closes(e, "item")
                 then Observations(before) + ObserveAll(Definitions(before), e.element.id, e.element.children)
                 else Observations(before)
  {
    assert (before + [e])[..|before|] == before;
  }

  lemma ObserveAllPrefix(definitions: map<string, string>, item: string, children: seq<Child>, i: nat)
    requires i <= |children|
    ensures ObserveAll(definitions, item, children[..i]) <= ObserveAll(definitions, item, children)
  {
    if i < |children| {
      var front := children[..|children| - 1];
      ObserveAllPrefix(definitions, item, front, i);
      assert front[..i] == children[..i];
    } else {
      assert children[..i] == children;
    }
  }

  lemma {:induction false} RootNext(before: seq<Event>, e: Event)
    ensures RootSeen(before + [e]) <==> RootSeen(before) || e.Start?
    ensures !RootSeen(before) ==> RootDate(before) == ""
    ensures RootDate(before + [e]) == if RootSeen(before) then RootDate(before) else if e.Start? then e.date else ""
  {
    assert e.Start? ==> (before + [e])[|before|].Start?;
    assert forall i | 0 <= i < |before| :: (before + [e])[i] == before[i];
    if before != [] {
      assert (before + [e])[1..] == before[1..] + [e];
      RootNext(before[1..], e);
      RootSeenTail(before);
    }
  }

  lemma RootSeenTail(events: seq<Event>)
    requires events != []
    ensures RootSeen(events) <==> events[0].Start? || RootSeen(events[1..])
  {
    assert forall i | 0 <= i < |events| - 1 :: events[1..][i] == events[i + 1];
    if RootSeen(events) && !events[0].Start? {
      var i :| 0 <= i < |events| && events[i].Start?;
      assert events[1..][i - 1].Start?;
    }
  }

  /** `scan_netlab_properties` above the bytes. */
  method Scan(events: seq<Event>, lenient: bool) returns (r: Result<Stats, Error>, emitted: seq<Observation>)
    ensures r.Ok? <==> Accepted(events, lenient)
    ensures r.Ok? ==> r.value == StatsOf(events) && emitted == Observations(events)
    ensures r.Err? ==> (GoodEvents(events, lenient) && EndingFault(events, r.error))
                       || exists k: nat :: Blames(events, k, lenient, r.error)
    ensures emitted <= Observations(events)
  {
    hide EventFault, GoodEvent, GoodEnding, EndingFault, StatsOf, Closed, Definitions,
         Items, RootSeen, RootDate, Observations;
    var scanner := new Scanner(lenient);
    for k := 0 to |events|
      invariant fresh(scanner) && scanner.lenient == lenient && scanner.Agrees(events[..k])
      invariant GoodEvents(events[..k], lenient)
    {
      assert events[..k] + [events[k]] == events[..k + 1];
      ObservationsPrefix(events, k + 1);
      var error := scanner.Handle(events[..k], events[k]);
      GoodEventsNext(events, k, lenient);
      if error.Some? {
        assert Blames(events, k, lenient, error.value);
        return Err(error.value), scanner.emitted;
      }
      hide GoodEvents;
    }
    assert events[..|events|] == events;
    emitted := scanner.emitted;
    var error := scanner.CheckEnding(events);
    if error.Some? { return Err(error.value), emitted; }
    return Ok(scanner.Summary(events)), emitted;
  }

  lemma {:induction false} ObservationsPrefix(events: seq<Event>, k: nat)
    requires k <= |events|
    ensures Observations(events[..k]) <= Observations(events)
  {
    if k < |events| {
      var front := events[..|events| - 1];
      ObservationsPrefix(front, k);
      assert front[..k] == events[..k];
    } else {
      assert events[..k] == events;
    }
  }

  lemma GoodEventsNext(events: seq<Event>, k: nat, lenient: bool)
    requires k < |events|
    ensures GoodEvents(events[..k], lenient) ==>
              (GoodEvents(events[..k + 1], lenient) <==> GoodEvent(events[..k], events[k], lenient))
    ensures GoodEvents(events, lenient) ==> GoodEvent(events[..k], events[k], lenient)
  {
    forall j | 0 <= j <= k ensures events[..k + 1][..j] == events[..j] {}
    forall j | 0 <= j < k ensures events[..k][..j] == events[..j] && events[..k][j] == events[..k + 1][j] {}
    assert events[..k + 1][k] == events[k];
    hide GoodEvent;
  }

  // --------------------------------------------------------------- main theorems

  lemma {:induction false} NothingUndefined(definitions: map<string, string>, item: string, children: seq<Child>)
    requires forall i | 0 <= i < |children| :: children[i].tag.Name?
    ensures CountUndefined(ObserveAll(definitions, item, children)) == 0 <==>
              forall i | 0 <= i < |children| :: children[i].tag.text in definitions
  {
    if children != [] {
      var front := children[..|children| - 1];
      NothingUndefined(definitions, item, front);
      var os := ObserveAll(definitions, item, children);
      assert os[..|os| - 1] == ObserveAll(definitions, item, front);
      assert forall i | 0 <= i < |front| :: children[i] == front[i];
    }
  }

  lemma {:induction false} UndefinedAdds(a: seq<Observation>, b: seq<Observation>)
    ensures CountUndefined(a + b) == CountUndefined(a) + CountUndefined(b)
  {
    if b == [] {
      assert a + b == a;
    } else {
      assert (a + b)[..|a + b| - 1] == a + b[..|b| - 1];
      UndefinedAdds(a, b[..|b| - 1]);
    }
  }

  lemma StrictItem(definitions: map<string, string>, item: string, children: seq<Child>)
    ensures GoodItem(definitions, children, false) <==>
              GoodItem(definitions, children, true) && CountUndefined(ObserveAll(definitions, item, children)) == 0
  {
    hide PropertyId, ObserveAll, CountUndefined;
    if GoodItem(definitions, children, true) {
      forall i | 0 <= i < |children| ensures children[i].tag.Name? {
        assert GoodChild(definitions, children, i, true);
      }
      NothingUndefined(definitions, item, children);
      forall i | 0 <= i < |children|
        ensures GoodChild(definitions, children, i, false) <==> children[i].tag.text in definitions
      {
        assert GoodChild(definitions, children, i, true);
      }
    }
    if GoodItem(definitions, children, false) {
      forall i | 0 <= i < |children| ensures GoodChild(definitions, children, i, true) {
        assert GoodChild(definitions, children, i, false);
      }
    }
  }

  lemma StrictEvent(before: seq<Event>, e: Event)
    ensures GoodEvent(before, e, false) <==>
              GoodEvent(before, e, true)
              && (Closes(e, "item") ==>
                    CountUndefined(ObserveAll(Definitions(before), e.element.id, e.element.children)) == 0)
  {
    if Closes(e, "item") {
      StrictItem(Definitions(before), e.element.id, e.element.children);
    }
    hide ItemId, PropertyId, CatalogDate, Definitions, Items, ObserveAll, CountUndefined, GoodItem;
  }

  lemma {:induction false} StrictEvents(events: seq<Event>)
    ensures GoodEvents(events, false) <==>
              GoodEvents(events, true) && CountUndefined(Observations(events)) == 0
  {
    if events != [] {
      var n := |events| - 1;
      var front, last := events[..n], events[n];
      StrictEvents(front);
      StrictEvent(front, last);
      GoodLast(events, true);
      GoodLast(events, false);
      ObservedLast(events);
      hide GoodEvents, GoodEvent, ObserveAll, Definitions, Observations, CountUndefined;
    }
  }

  lemma GoodLast(events: seq<Event>, lenient: bool)
    requires events != []
    ensures var n := |events| - 1;
            GoodEvents(events, lenient) <==>
              GoodEvents(events[..n], lenient) && GoodEvent(events[..n], events[n], lenient)
  {
    var n := |events| - 1;
    assert events[..n + 1] == events;
    GoodEventsNext(events, n, lenient);
    forall j | 0 <= j < n ensures events[..n][..j] == events[..j] && events[..n][j] == events[j] {}
    hide GoodEvent;
  }

  lemma ObservedLast(events: seq<Event>)
    requires events != []
    ensures var n := |events| - 1; var e := events[n];
            CountUndefined(Observations(events)) == CountUndefined(Observations(events[..n]))
              + if Closes(e, "item")
                then CountUndefined(ObserveAll(Definitions(events[..n]), e.element.id, e.element.children)) else 0
  {
    var n := |events| - 1;
    var front, e := events[..n], events[n];
    if Closes(e, "item") {
      UndefinedAdds(Observations(front), ObserveAll(Definitions(front), e.element.id, e.element.children));
    } else {
      assert Observations(events) == Observations(front);
    }
    hide ObserveAll, Definitions, CountUndefined;
  }

  /** Strict mode accepts exactly the feeds that lenient mode accepts without an unknown
      observation.  What is emitted and counted depends on the feed alone, not on the mode. */
  lemma StrictIsLenientWithoutUnknowns(events: seq<Event>)
    ensures Accepted(events, false) <==> Accepted(events, true) && StatsOf(events).unknownObservations == 0
  {
    StrictEvents(events);
    hide GoodEvents, GoodEnding;
  }

  lemma {:induction false} DefinedMeansClosedEarlier(events: seq<Event>, property: string)
    ensures property in Definitions(events) <==> exists j | 0 <= j < |events| :: Defines(events[j], property)
  {
    if events != [] {
      var front := events[..|events| - 1];
      DefinedMeansClosedEarlier(front, property);
      assert forall j | 0 <= j < |front| :: front[j] == events[j];
      assert Defines(events[|events| - 1], property) ==> property in Definitions(events);
    }
  }

  /** An observation says `definition_missing` exactly when no definition of its property closed
      before its item did. */
  lemma {:induction false} UndefinedMeansNotClosedEarlier(events: seq<Event>, o: Observation) returns (k: nat)
    requires o in Observations(events)
    ensures k < |events| && Describes(events[k], o.item)
    ensures o.undefined <==> forall j | 0 <= j < k :: !Defines(events[j], o.property)
  {
    var n := |events| - 1;
    var front, last := events[..n], events[n];
    if o in Observations(front) {
      k := UndefinedMeansNotClosedEarlier(front, o);
      assert forall j | 0 <= j < n :: front[j] == events[j];
    } else {
      k := n;
      ObservedIn(Definitions(front), last.element.id, last.element.children, o);
      DefinedMeansClosedEarlier(front, o.property);
      assert forall j | 0 <= j < n :: front[j] == events[j];
    }
    hide Definitions, Defines;
  }

  /** An observation is read off a child of its item: its property is the child's tag, its value the
      child's text, missing exactly if that is empty or a dash, and its name the one that the
      definitions closed before the item give the property. */
  lemma {:induction false} ObservationMeans(events: seq<Event>, o: Observation) returns (k: nat, c: Child)
    requires o in Observations(events)
    ensures k < |events| && Describes(events[k], o.item) && c in events[k].element.children
    ensures c.text == o.value && (c.tag.Name? ==> c.tag.text == o.property)
    ensures o.missing <==> o.value == "" || o.value == "-"
    ensures var known := Definitions(events[..k]);
            o.name == if o.property in known then Some(known[o.property]) else None
  {
    var n := |events| - 1;
    var front, last := events[..n], events[n];
    if o in Observations(front) {
      k, c := ObservationMeans(front, o);
      assert front[..k] == events[..k];
    } else {
      k := n;
      c := ObservedChild(Definitions(front), last.element.id, last.element.children, o);
    }
    hide Definitions;
  }

  lemma {:induction false} ObservedChild(definitions: map<string, string>, item: string, children: seq<Child>,
                                         o: Observation)
      returns (c: Child)
    requires o in ObserveAll(definitions, item, children)
    ensures c in children && o == Observe(definitions, item, c)
  {
    var front := children[..|children| - 1];
    hide Observe;
    if o in ObserveAll(definitions, item, front) {
      c := ObservedChild(definitions, item, front, o);
    } else {
      c := children[|children| - 1];
    }
  }

  lemma {:induction false} ObservedIn(definitions: map<string, string>, item: string, children: seq<Child>,
                                      o: Observation)
    requires o in ObserveAll(definitions, item, children)
    ensures o.item == item && (o.undefined <==> o.property !in definitions)
  {
    var front := children[..|children| - 1];
    if o in ObserveAll(definitions, item, front) { ObservedIn(definitions, item, front, o); }
  }
}
