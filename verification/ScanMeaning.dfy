/** What the properties scan accepts, emits and counts, in terms of the positions of its events alone. */
module ScanMeaning {
  import opened Common
  import opened NetlabScan

  predicate Ends(e: Event, name: string) { e.End? && e.element.tag == Name(name) }

  /** A property definition or an item with this id. */
  predicate EndsOf(e: Event, name: string, id: string) { Ends(e, name) && e.element.id == id }

  // ----------------------------------------------------------------------- definitions

  /** The last definition of the property before event `k` gives it this name. */
  ghost predicate NamedBefore(events: seq<Event>, k: nat, property: string, name: string)
    requires k <= |events|
  {
    exists j | 0 <= j < k ::
      && EndsOf(events[j], "property", property) && events[j].element.text == name
      && forall l | j < l < k :: !EndsOf(events[l], "property", property)
  }

  lemma {:induction false} DefinitionMeans(events: seq<Event>, property: string)
    ensures property in Definitions(events) <==> exists j | 0 <= j < |events| :: EndsOf(events[j], "property", property)
    ensures property in Definitions(events) ==>
              NamedBefore(events, |events|, property, Definitions(events)[property])
  {
    if events != [] {
      var front := events[..|events| - 1];
      DefinitionMeans(front, property);
    }
  }

  lemma {:induction false} ItemsMean(events: seq<Event>, id: string)
    ensures id in Items(events) <==> exists j | 0 <= j < |events| :: EndsOf(events[j], "item", id)
  {
    if events != [] {
      var front := events[..|events| - 1];
      ItemsMean(front, id);
    }
  }

  // ------------------------------------------------------------------------- emissions

  /** Item and child positions. */
  ghost function Children(events: seq<Event>): set<(nat, nat)> {
    set k: nat, i: nat | k < |events| && Ends(events[k], "item") && i < |events[k].element.children| :: (k, i)
  }

  ghost function ChildrenAt(k: nat, n: nat): set<(nat, nat)> { set i: nat | i < n :: (k, i) }

  lemma {:induction false} ChildrenAtSize(k: nat, n: nat)
    ensures |ChildrenAt(k, n)| == n
  {
    if n == 0 {
      assert ChildrenAt(k, n) == {};
    } else {
      ChildrenAtSize(k, n - 1);
      assert ChildrenAt(k, n) == ChildrenAt(k, n - 1) + {(k, n - 1)};
    }
  }

  lemma ChildrenNext(front: seq<Event>, e: Event)
    ensures Children(front + [e]) ==
              if Ends(e, "item") then Children(front) + ChildrenAt(|front|, |e.element.children|) else Children(front)
  {
    var all := front + [e];
    assert forall k: nat | k < |front| :: all[k] == front[k];
    assert all[|front|] == e;
  }

  lemma {:induction false} ObservedSize(definitions: map<string, string>, item: string, children: seq<Child>)
    ensures |ObserveAll(definitions, item, children)| == |children|
    ensures forall i | 0 <= i < |children| ::
              ObserveAll(definitions, item, children)[i] == Observe(definitions, item, children[i])
  {
    if children != [] { ObservedSize(definitions, item, children[..|children| - 1]); }
    hide Observe;
  }

  /** One observation is emitted for each child of each item. */
  lemma {:induction false} EmissionCount(events: seq<Event>)
    ensures |Observations(events)| == |Children(events)|
  {
    if events == [] {
      assert Children(events) == {};
    } else {
      var front, last := events[..|events| - 1], events[|events| - 1];
      EmissionCount(front);
      assert events == front + [last];
      ChildrenNext(front, last);
      if Ends(last, "item") {
        var n := |last.element.children|;
        ChildrenAtSize(|front|, n);
        ObservedSize(Definitions(front), last.element.id, last.element.children);
        assert Children(front) !! ChildrenAt(|front|, n);
        assert |Children(events)| == |Children(front)| + n;
      }
      hide Children, ChildrenAt, Definitions, ObserveAll;
    }
  }

  /** What is emitted for a child: its own tag and text, and the name defined before its item closed. */
  ghost predicate ReadOff(events: seq<Event>, k: nat, i: nat, o: Observation)
    requires k < |events| && events[k].End? && i < |events[k].element.children|
  {
    var child := events[k].element.children[i];
    && o.item == events[k].element.id && (child.tag.Name? ==> o.property == child.tag.text) && o.value == child.text
    && (o.missing <==> child.text == "" || child.text == "-")
    && (o.undefined <==> forall j | 0 <= j < k :: !EndsOf(events[j], "property", o.property))
    && (o.undefined <==> o.name.None?)
    && (o.name.Some? ==> NamedBefore(events, k, o.property, o.name.value))
  }

  lemma ObservedIsReadOff(events: seq<Event>, k: nat, i: nat)
    requires k < |events| && events[k].End? && i < |events[k].element.children|
    ensures var e := events[k].element;
            ReadOff(events, k, i, Observe(Definitions(events[..k]), e.id, e.children[i]))
  {
    var o := Observe(Definitions(events[..k]), events[k].element.id, events[k].element.children[i]);
    DefinitionMeans(events[..k], o.property);
    assert forall j | 0 <= j < k :: events[..k][j] == events[j];
    hide Definitions, EndsOf;
  }

  /** The emissions follow the events: after those of the items before come the children, in order. */
  lemma {:induction false} EmissionMeans(events: seq<Event>, k: nat, i: nat)
    requires k < |events| && Ends(events[k], "item") && i < |events[k].element.children|
    ensures var at := |Children(events[..k])| + i;
            at < |Observations(events)| && ReadOff(events, k, i, Observations(events)[at])
  {
    EmissionCount(events[..k]);
    EmissionAt(events, k, i);
    ObservedIsReadOff(events, k, i);
  }

  lemma {:induction false} EmissionAt(events: seq<Event>, k: nat, i: nat)
    requires k < |events| && Ends(events[k], "item") && i < |events[k].element.children|
    ensures var at, e := |Observations(events[..k])| + i, events[k].element;
            && at < |Observations(events)|
            && Observations(events)[at] == Observe(Definitions(events[..k]), e.id, e.children[i])
  {
    var front := events[..|events| - 1];
    if k < |front| {
      EmissionAt(front, k, i);
      assert front[..k] == events[..k];
    } else {
      ObservedSize(Definitions(front), events[k].element.id, events[k].element.children);
    }
    hide Definitions, Observe, ObserveAll;
  }

  // --------------------------------------------------------------------------- figures

  ghost function ClosedAt(events: seq<Event>, name: string): set<nat> {
    set k: nat | k < |events| && Ends(events[k], name)
  }

  lemma {:induction false} ClosedMeans(events: seq<Event>, name: string)
    ensures Closed(events, name) == |ClosedAt(events, name)|
  {
    if events == [] {
      assert ClosedAt(events, name) == {};
    } else {
      var front, last := events[..|events| - 1], events[|events| - 1];
      ClosedMeans(front, name);
      var was := ClosedAt(front, name);
      assert ClosedAt(events, name) == if Ends(last, name) then was + {|front|} else was;
    }
  }

  ghost function MissingAt(os: seq<Observation>): set<nat> { set p: nat | p < |os| && os[p].missing }

  ghost function UndefinedAt(os: seq<Observation>): set<nat> { set p: nat | p < |os| && os[p].undefined }

  lemma {:induction false} MissingMeans(os: seq<Observation>)
    ensures CountMissing(os) == |MissingAt(os)|
  {
    if os == [] {
      assert MissingAt(os) == {};
    } else {
      var front, last := os[..|os| - 1], os[|os| - 1];
      MissingMeans(front);
      assert MissingAt(os) == if last.missing then MissingAt(front) + {|front|} else MissingAt(front);
    }
  }

  lemma {:induction false} UndefinedMeans(os: seq<Observation>)
    ensures CountUndefined(os) == |UndefinedAt(os)|
  {
    if os == [] {
      assert UndefinedAt(os) == {};
    } else {
      var front, last := os[..|os| - 1], os[|os| - 1];
      UndefinedMeans(front);
      assert UndefinedAt(os) == if last.undefined then UndefinedAt(front) + {|front|} else UndefinedAt(front);
    }
  }

  lemma {:induction false} DateMeans(events: seq<Event>, k: nat)
    requires k < |events| && events[k].Start? && forall j | 0 <= j < k :: !events[j].Start?
    ensures RootDate(events) == events[k].date
  {
    if k > 0 {
      assert events[1..][k - 1] == events[k];
      DateMeans(events[1..], k - 1);
    }
  }

  /** The statistics of a feed, field by field. */
  lemma StatsMean(events: seq<Event>)
    ensures var s, os := StatsOf(events), Observations(events);
            && s.properties == |set k: nat | k < |events| && Ends(events[k], "property")|
            && s.items == |set k: nat | k < |events| && Ends(events[k], "item")|
            && s.observations == |os| == |Children(events)|
            && s.missingObservations == |set p: nat | p < |os| && os[p].missing|
            && s.unknownObservations == |set p: nat | p < |os| && os[p].undefined|
            && s.unknownIds == |set p: nat | p < |os| && os[p].undefined :: os[p].property|
            && forall k | 0 <= k < |events| && events[k].Start? && (forall j | 0 <= j < k :: !events[j].Start?) ::
                 s.catalogDate == events[k].date
  {
    var os := Observations(events);
    ClosedMeans(events, "property");
    ClosedMeans(events, "item");
    EmissionCount(events);
    MissingMeans(os);
    UndefinedMeans(os);
    assert ClosedAt(events, "property") == set k: nat | k < |events| && Ends(events[k], "property");
    assert ClosedAt(events, "item") == set k: nat | k < |events| && Ends(events[k], "item");
    assert MissingAt(os) == set p: nat | p < |os| && os[p].missing;
    assert UndefinedAt(os) == set p: nat | p < |os| && os[p].undefined;
    assert UndefinedIds(os) == set p: nat | p < |os| && os[p].undefined :: os[p].property;
    forall k | 0 <= k < |events| && events[k].Start? && (forall j | 0 <= j < k :: !events[j].Start?)
      ensures RootDate(events) == events[k].date
    {
      DateMeans(events, k);
    }
    hide Closed, Observations, CountMissing, CountUndefined, RootDate, Children;
  }

  // -------------------------------------------------------------------- which feeds pass

  /** A number without leading zero. */
  predicate IsNumber(s: string) {
    s != "" && '1' <= s[0] <= '9' && forall i | 0 <= i < |s| :: '0' <= s[i] <= '9'
  }

  predicate IsPropertyId(s: string) { |s| >= 2 && s[0] == 'p' && IsNumber(s[1..]) }

  /** `2024-05-31 12:00`, say. */
  predicate IsDate(s: string) {
    && |s| == 16 && s[4] == '-' && s[7] == '-' && s[10] == ' ' && s[13] == ':'
    && forall i | i in {0, 1, 2, 3, 5, 6, 8, 9, 11, 12, 14, 15} :: '0' <= s[i] <= '9'
  }

  /** Event `k` is in order, given those before it. */
  ghost predicate InOrder(events: seq<Event>, k: nat, lenient: bool)
    requires k < |events|
  {
    var e := events[k];
    && (e.Start? ==> e.tag.Name?) && (e.End? ==> e.element.tag.Name?)
    && (e.Start? && (forall j | 0 <= j < k :: !events[j].Start?) ==> e.tag == Name("xml_catalog") && IsDate(e.date))
    && (Ends(e, "property") ==>
          && IsPropertyId(e.element.id) && e.element.text != ""
          && forall j | 0 <= j < k :: !EndsOf(events[j], "property", e.element.id))
    && (Ends(e, "item") ==>
          && IsNumber(e.element.id) && (forall j | 0 <= j < k :: !EndsOf(events[j], "item", e.element.id))
          && forall i | 0 <= i < |e.element.children| :: ChildInOrder(events, k, i, lenient))
  }

  /** Child `i` of the item that event `k` ends is a property, and not a second time; in strict mode
      it is defined before. */
  ghost predicate ChildInOrder(events: seq<Event>, k: nat, i: nat, lenient: bool)
    requires k < |events| && events[k].End? && i < |events[k].element.children|
  {
    var children := events[k].element.children;
    && children[i].tag.Name? && IsPropertyId(children[i].tag.text)
    && (forall j | 0 <= j < i :: children[j].tag != children[i].tag)
    && (lenient || exists j | 0 <= j < k :: EndsOf(events[j], "property", children[i].tag.text))
  }

  lemma ShapesMean(s: string)
    ensures ItemId(s) <==> IsNumber(s)
    ensures PropertyId(s) <==> IsPropertyId(s)
    ensures CatalogDate(s) <==> IsDate(s)
  {
    if IsDate(s) {
      forall i | 0 <= i < 16 && i != 4 && i != 7 && i != 10 && i != 13 ensures IsDigit(s[i]) {
        assert i in {0, 1, 2, 3, 5, 6, 8, 9, 11, 12, 14, 15};
      }
    }
  }

  lemma ChildMeans(events: seq<Event>, k: nat, i: nat, lenient: bool)
    requires k < |events| && events[k].End? && i < |events[k].element.children|
    ensures GoodChild(Definitions(events[..k]), events[k].element.children, i, lenient) <==>
              ChildInOrder(events, k, i, lenient)
  {
    var tag := events[k].element.children[i].tag;
    if tag.Name? {
      ShapesMean(tag.text);
      DefinitionMeans(events[..k], tag.text);
    }
    assert forall j | 0 <= j < k :: events[..k][j] == events[j];
    hide Definitions, EndsOf, PropertyId, IsPropertyId;
  }

  lemma EventMeans(events: seq<Event>, k: nat, lenient: bool)
    requires k < |events|
    ensures GoodEvent(events[..k], events[k], lenient) <==> InOrder(events, k, lenient)
  {
    var before, e := events[..k], events[k];
    assert forall j | 0 <= j < k :: before[j] == events[j];
    if e.Start? {
      ShapesMean(e.date);
    } else {
      var id := e.element.id;
      ShapesMean(id);
      DefinitionMeans(before, id);
      ItemsMean(before, id);
      forall i | 0 <= i < |e.element.children|
        ensures GoodChild(Definitions(before), e.element.children, i, lenient) <==> ChildInOrder(events, k, i, lenient)
      {
        ChildMeans(events, k, i, lenient);
      }
    }
    hide Definitions, Items, EndsOf, PropertyId, IsPropertyId, ItemId, IsNumber, CatalogDate, IsDate, GoodChild,
         ChildInOrder;
  }

  /** A feed is accepted exactly if all its events are in order, one element of each container closes,
      and there is a root, a definition and an item. */
  lemma AcceptedMeans(events: seq<Event>, lenient: bool)
    ensures Accepted(events, lenient) <==>
              && (forall k | 0 <= k < |events| :: InOrder(events, k, lenient))
              && (exists k | 0 <= k < |events| :: events[k].Start?)
              && |set k: nat | k < |events| && Ends(events[k], "properties")| == 1
              && |set k: nat | k < |events| && Ends(events[k], "items")| == 1
              && (exists k | 0 <= k < |events| :: Ends(events[k], "property"))
              && (exists k | 0 <= k < |events| :: Ends(events[k], "item"))
  {
    forall k | 0 <= k < |events|
      ensures GoodEvent(events[..k], events[k], lenient) <==> InOrder(events, k, lenient)
    {
      EventMeans(events, k, lenient);
    }
    ClosedMeans(events, "properties");
    ClosedMeans(events, "items");
    assert ClosedAt(events, "properties") == set k: nat | k < |events| && Ends(events[k], "properties");
    assert ClosedAt(events, "items") == set k: nat | k < |events| && Ends(events[k], "items");
    SomeDefinition(events);
    SomeItem(events);
    hide GoodEvent, InOrder, Closed, Definitions, Items;
  }

  lemma SomeDefinition(events: seq<Event>)
    ensures Definitions(events) != map[] <==> exists k | 0 <= k < |events| :: Ends(events[k], "property")
  {
    hide Definitions;
    if property :| property in Definitions(events) { DefinitionMeans(events, property); }
    forall k | 0 <= k < |events| && Ends(events[k], "property") ensures events[k].element.id in Definitions(events) {
      DefinitionMeans(events, events[k].element.id);
    }
  }

  lemma SomeItem(events: seq<Event>)
    ensures Items(events) != {} <==> exists k | 0 <= k < |events| :: Ends(events[k], "item")
  {
    hide Items;
    if id :| id in Items(events) { ItemsMean(events, id); }
    forall k | 0 <= k < |events| && Ends(events[k], "item") ensures events[k].element.id in Items(events) {
      ItemsMean(events, events[k].element.id);
    }
  }
}
