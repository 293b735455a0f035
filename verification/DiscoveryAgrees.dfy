/** Discovery over ATT gives the service tree that was published, exactly when no handle is skipped before a service. */
module DiscoveryAgrees {
  import opened Bits
  import opened GattBytes
  import opened Discovery
  import opened ConformingServer
  import opened DiscoveryFinds
  import opened AttributeTable
  import opened ServiceGrowth
  import opened TreeRelation
  import Catalog

  // ----- The lists a server reports for a published table are well formed and within the client's limits -----

  predicate WithinLimits(services: seq<Service>) {
    && |services| <= MAX_SERVICES
    && (forall i :: 0 <= i < |services| ==> ServiceWithinLimits(services[i]))
  }

  predicate ServiceWithinLimits(s: Service) {
    && |s.characteristics| <= MAX_CHARACTERISTICS
    && (forall j :: 0 <= j < |s.characteristics| ==> |s.characteristics[j].descriptors| <= MAX_DESCRIPTORS)
  }

  lemma {:induction false} AddWithinLimits(services: seq<Service>, a: Attribute)
    requires WithinLimits(services) && a.handle > 0 && Catalog.AddAttribute(services, a).Some?
    ensures WithinLimits(Catalog.AddAttribute(services, a).value)
  {
    hide UuidOk, Catalog.Restricted, ReadLe16;
    if services != [] { assert ServiceWithinLimits(services[|services| - 1]); }
  }

  lemma {:induction false} TreeWithinLimits(attributes: seq<Attribute>)
    requires Catalog.AttributesOk(attributes) && Catalog.Tree(attributes).Some?
    ensures WithinLimits(Catalog.Tree(attributes).value)
  {
    if attributes != [] {
      TreeWithinLimits(attributes[..|attributes| - 1]);
      AddWithinLimits(Catalog.Tree(attributes[..|attributes| - 1]).value, attributes[|attributes| - 1]);
    }
  }

  /** The last value handle that a characteristic seen so far can have. */
  function Reached(attributes: seq<Attribute>, n: nat): nat
    requires Regular(attributes) && n <= |attributes|
  {
    if n > 0 && attributes[n - 1].uuid == CHARACTERISTIC then
      assert RegularAt(attributes, n - 1);
      attributes[n].handle
    else Seen(attributes, n)
  }

  predicate ReachUpTo(items: seq<Item>, top: nat) {
    forall i :: 0 <= i < |items| ==> items[i].reach <= top
  }

  lemma {:induction false} ValuesReached(attributes: seq<Attribute>, n: nat)
    requires Regular(attributes) && n <= |attributes|
    ensures ReachUpTo(CharacteristicList(attributes, n), Reached(attributes, n))
  {
    if n > 0 {
      ValuesReached(attributes, n - 1);
      SeenGrows(attributes, n - 1);
      assert RegularAt(attributes, n - 1);
      if n >= 2 { assert RegularAt(attributes, n - 2); }
      if n < |attributes| { SeenGrows(attributes, n); }
    }
  }

  predicate Declares(a: Attribute) {
    && (a.uuid == PRIMARY ==> UuidOk(a.value))
    && (a.uuid == CHARACTERISTIC ==> (|a.value| == 5 || |a.value| == 19) && ReadLe16(a.value[1..]) > a.handle)
  }

  lemma {:induction false} TreeDeclares(attributes: seq<Attribute>, n: nat, i: nat)
    requires Catalog.AttributesOk(attributes) && i < n <= |attributes| && Catalog.Tree(attributes[..n]).Some?
    ensures Declares(attributes[i])
  {
    TreeStep(attributes, n);
    if i < n - 1 { TreeDeclares(attributes, n - 1, i); }
  }

  lemma {:induction false} CharacteristicsSorted(attributes: seq<Attribute>, n: nat)
    requires Regular(attributes) && n <= |attributes| && forall i :: 0 <= i < n ==> Declares(attributes[i])
    ensures Sorted(Characteristics, CharacteristicList(attributes, n))
  {
    if n > 0 {
      CharacteristicsSorted(attributes, n - 1);
      ValuesReached(attributes, n - 1);
      SeenGrows(attributes, n - 1);
      assert Declares(attributes[n - 1]);
      if n >= 2 { assert RegularAt(attributes, n - 2); }
      var before, a := CharacteristicList(attributes, n - 1), attributes[n - 1];
      if a.uuid == CHARACTERISTIC { SortedAppend(Characteristics, before, CharacteristicItem(a)); }
    }
  }

  lemma {:induction false} SortedAppend(kind: Kind, items: seq<Item>, item: Item)
    requires Sorted(kind, items) && ItemOk(kind, item) && forall i :: 0 <= i < |items| ==> items[i].reach < item.key
    ensures Sorted(kind, items + [item])
  {
  }

  predicate ClosedUpTo(groups: seq<Item>, top: nat) {
    forall i :: 0 <= i < |groups| - 1 ==> groups[i].reach <= top
  }

  lemma {:induction false} GroupsSorted(attributes: seq<Attribute>, n: nat)
    requires Regular(attributes) && n <= |attributes| && forall i :: 0 <= i < n ==> Declares(attributes[i])
    ensures Sorted(Groups, GroupList(attributes, n))
    ensures ClosedUpTo(GroupList(attributes, n), Seen(attributes, n))
  {
    if n > 0 {
      GroupsSorted(attributes, n - 1);
      KeysSeen(attributes, n - 1);
      SeenGrows(attributes, n - 1);
      assert Declares(attributes[n - 1]);
      hide Regular, Sorted, ClosedUpTo, KeysUpTo;
      var before, a, top := GroupList(attributes, n - 1), attributes[n - 1], Seen(attributes, n - 1);
      if a.uuid == PRIMARY {
        SortedClosed(before, top, Item(a.handle, TOP, 0, a.value));
      } else {
        StaysClosed(before, top, a.handle);
      }
    }
  }

  lemma {:induction false} StaysClosed(groups: seq<Item>, top: nat, later: nat)
    requires ClosedUpTo(groups, top) && top <= later
    ensures ClosedUpTo(groups, later)
  {
  }

  lemma {:induction false} SortedClosed(groups: seq<Item>, top: nat, g: Item)
    requires Sorted(Groups, groups) && KeysUpTo(groups, top) && top <= TOP && ClosedUpTo(groups, top)
    requires ItemOk(Groups, g) && g.key > top
    ensures Sorted(Groups, Closed(groups, top) + [g])
    ensures ClosedUpTo(Closed(groups, top) + [g], g.key)
  {
    if groups != [] { assert ItemOk(Groups, groups[|groups| - 1]); }
    assert Sorted(Groups, Closed(groups, top));
    SortedAppend(Groups, Closed(groups, top), g);
  }

  lemma {:induction false} InformationSorted(attributes: seq<Attribute>, n: nat)
    requires Regular(attributes) && n <= |attributes|
    ensures Sorted(Information, InformationList(attributes, n))
    ensures ReachUpTo(InformationList(attributes, n), Seen(attributes, n))
  {
    if n > 0 {
      InformationSorted(attributes, n - 1);
      SeenGrows(attributes, n - 1);
      assert Catalog.AttributeOk(attributes[n - 1]);
      SortedAppend(Information, InformationList(attributes, n - 1), InformationItem(attributes[n - 1]));
    }
  }

  lemma {:induction false} TableListsSorted(attributes: seq<Attribute>)
    requires Regular(attributes) && Catalog.Tree(attributes).Some?
    ensures forall kind :: Sorted(kind, ListOf(ListsOf(attributes, |attributes|), kind))
  {
    var n := |attributes|;
    assert attributes[..n] == attributes;
    forall i | 0 <= i < n
      ensures Declares(attributes[i])
    {
      TreeDeclares(attributes, n, i);
    }
    hide Declares, Sorted;
    GroupsSorted(attributes, n);
    CharacteristicsSorted(attributes, n);
    InformationSorted(attributes, n);
  }

  /** A characteristic declared in a group has its value there too. */
  predicate ValuesInside(groups: seq<Item>, characteristics: seq<Item>) {
    forall i, k :: 0 <= i < |groups| && 0 <= k < |characteristics| ==> ValueInside(groups[i], characteristics[k])
  }

  predicate ValueInside(g: Item, c: Item) {
    g.key <= c.key <= g.reach ==> c.reach <= g.reach
  }

  lemma {:induction false} ValuesStayInside(attributes: seq<Attribute>, n: nat)
    requires Regular(attributes) && n <= |attributes| && forall i :: 0 <= i < n ==> Declares(attributes[i])
    ensures ValuesInside(GroupList(attributes, n), CharacteristicList(attributes, n))
  {
    if n > 0 {
      ValuesStayInside(attributes, n - 1);
      KeysSeen(attributes, n - 1);
      ValuesReached(attributes, n - 1);
      GroupsSorted(attributes, n - 1);
      SeenGrows(attributes, n - 1);
      if n >= 2 { assert RegularAt(attributes, n - 2); }
      hide Regular, RegularAt, Declares, Sorted, ClosedUpTo, ValuesInside, KeysUpTo;
      var groups, cs, a := GroupList(attributes, n - 1), CharacteristicList(attributes, n - 1), attributes[n - 1];
      if a.uuid == PRIMARY {
        CloseKeepsInside(groups, cs, Seen(attributes, n - 1), Item(a.handle, TOP, 0, a.value));
      } else if a.uuid == CHARACTERISTIC && |a.value| >= 3 {
        OpenLast(attributes, n - 1);
        AppendKeepsInside(groups, cs, Seen(attributes, n - 1), CharacteristicItem(a));
      }
    }
  }

  lemma {:induction false} OpenLast(attributes: seq<Attribute>, n: nat)
    requires n <= |attributes|
    ensures var groups := GroupList(attributes, n); groups != [] ==> groups[|groups| - 1].reach == TOP
  {
    if n > 0 { OpenLast(attributes, n - 1); }
  }

  lemma {:induction false} CloseKeepsInside(groups: seq<Item>, cs: seq<Item>, top: nat, g: Item)
    requires ValuesInside(groups, cs) && ReachUpTo(cs, top) && KeysUpTo(cs, top) && g.key > top
    ensures ValuesInside(Closed(groups, top) + [g], cs)
  {
  }

  lemma {:induction false} AppendKeepsInside(groups: seq<Item>, cs: seq<Item>, top: nat, c: Item)
    requires ValuesInside(groups, cs) && c.key > top && c.reach <= TOP
    requires ClosedUpTo(groups, top)
    requires groups != [] ==> groups[|groups| - 1].reach == TOP
    ensures ValuesInside(groups, cs + [c])
  {
  }

  lemma {:induction false} MatchFits(s: Service, lists: Lists, i: nat)
    requires i < |lists.groups| && Matches(s, lists.groups[i], lists.characteristics, lists.information)
    requires ServiceWithinLimits(s)
    requires ValuesInside(lists.groups, lists.characteristics)
    ensures ServiceFits(lists, lists.groups[i])
  {
    var g := lists.groups[i];
    var cs := CharacteristicsOf(lists, g);
    assert cs == CharacteristicItems(s.characteristics);
    forall j | 0 <= j < |cs|
      ensures cs[j].reach <= g.reach
      ensures |DescriptorsAt(lists, cs, j, g.reach)| <= MAX_DESCRIPTORS
    {
      VisibleIn(lists.characteristics, g.key, g.reach, j);
      var k :| 0 <= k < |lists.characteristics| && lists.characteristics[k] == cs[j];
      assert ValueInside(g, lists.characteristics[k]);
      assert DescriptorsMatch(s.characteristics, j, g.reach, lists.information);
      assert LastHandle(cs, j, g.reach) == EndOf(s.characteristics, j, g.reach);
    }
  }

  lemma {:induction false} TableFits(attributes: seq<Attribute>)
    requires Regular(attributes) && Catalog.Tree(attributes).Some? && attributes != []
    ensures Fitting(ListsOf(attributes, |attributes|))
    ensures MatchesAll(Catalog.Tree(attributes).value, ListsOf(attributes, |attributes|))
  {
    var n := |attributes|;
    var services, lists := Catalog.Tree(attributes).value, ListsOf(attributes, n);
    assert attributes[..n] == attributes;
    TreeRelated(attributes, n);
    TreeWithinLimits(attributes);
    Catalog.TreeNotEmpty(attributes);
    KeysSeen(attributes, n);
    forall i | 0 <= i < n
      ensures Declares(attributes[i])
    {
      TreeDeclares(attributes, n, i);
    }
    ValuesStayInside(attributes, n);
    hide Matches, ValuesInside, ServiceFits, Regular, Declares, Catalog.Tree, GroupList, CharacteristicList,
      InformationList, ServiceWithinLimits;
    forall i | 0 <= i < |lists.groups|
      ensures ServiceFits(lists, lists.groups[i])
    {
      MatchFits(services[i], lists, i);
    }
  }

  // ----- Where services end -----

  predicate NoGaps(attributes: seq<Attribute>, n: nat)
    requires n <= |attributes|
  {
    forall i :: 0 < i < n && attributes[i].uuid == PRIMARY ==> attributes[i].handle == attributes[i - 1].handle + 1
  }

  predicate EndsAgree(services: seq<Service>, groups: seq<Item>) {
    |services| == |groups| && forall i :: 0 <= i < |services| ==> services[i].end == groups[i].reach
  }

  predicate EndsRelated(attributes: seq<Attribute>, n: nat, services: seq<Service>)
    requires n <= |attributes|
  {
    var groups := GroupList(attributes, n);
    && |services| == |groups| && (services == [] <==> n == 0)
    && (services != [] ==> services[|services| - 1].end == TOP && groups[|services| - 1].reach == TOP)
    && (EndsAgree(services, groups) <==> NoGaps(attributes, n))
  }

  lemma {:induction false} EndsStep(attributes: seq<Attribute>, n: nat, before: seq<Service>)
    requires Regular(attributes) && n < |attributes| && EndsRelated(attributes, n, before)
    requires attributes[n].handle > 0 && Catalog.AddAttribute(before, attributes[n]).Some?
    ensures EndsRelated(attributes, n + 1, Catalog.AddAttribute(before, attributes[n]).value)
  {
    var a, groups := attributes[n], GroupList(attributes, n);
    var after, more := Catalog.AddAttribute(before, a).value, GroupList(attributes, n + 1);
    hide UuidOk, Catalog.Restricted, ReadLe16, Regular;
    assert NoGaps(attributes, n + 1) <==>
      NoGaps(attributes, n) && (n > 0 && a.uuid == PRIMARY ==> a.handle == attributes[n - 1].handle + 1);
    if a.uuid == PRIMARY {
      PrimaryAdds(before, a);
      assert more == Closed(groups, Seen(attributes, n)) + [Item(a.handle, TOP, 0, a.value)];
      if before != [] { ClosedEnds(before, groups, a, Seen(attributes, n)); }
    } else {
      SameEnds(before, after, groups);
    }
  }

  lemma {:induction false} ClosedEnds(before: seq<Service>, groups: seq<Item>, a: Attribute, top: nat)
    requires |before| == |groups| > 0 && before[|before| - 1].end == TOP == groups[|groups| - 1].reach && a.handle > 0
    ensures EndsAgree(Catalog.WithService(before, a.handle, a.value),
      Closed(groups, top) + [Item(a.handle, TOP, 0, a.value)]) <==>
      EndsAgree(before, groups) && a.handle - 1 == top
  {
    var after, more := Catalog.WithService(before, a.handle, a.value), Closed(groups, top)
      + [Item(a.handle, TOP, 0, a.value)];
    var last := |before| - 1;
    assert after[last].end == a.handle - 1 && more[last].reach == top;
    if EndsAgree(after, more) {
      forall i | 0 <= i < |before|
        ensures before[i].end == groups[i].reach
      {
        if i < last { assert after[i].end == more[i].reach; }
      }
    }
  }

  lemma {:induction false} SameEnds(before: seq<Service>, after: seq<Service>, groups: seq<Item>)
    requires |before| == |after| == |groups|
    requires forall i :: 0 <= i < |before| ==> after[i].end == before[i].end
    ensures EndsAgree(after, groups) <==> EndsAgree(before, groups)
  {
    if EndsAgree(after, groups) {
      forall i | 0 <= i < |before|
        ensures before[i].end == groups[i].reach
      {
        assert after[i].end == groups[i].reach;
      }
    }
  }

  /** The catalog and the server agree on where every service ends just when no handle is skipped before a service. */
  lemma {:induction false} EndsAgreeWithoutGaps(attributes: seq<Attribute>, n: nat)
    requires Regular(attributes) && n <= |attributes| && Catalog.Tree(attributes[..n]).Some?
    ensures EndsRelated(attributes, n, Catalog.Tree(attributes[..n]).value)
  {
    hide *;
    if n > 0 {
      RegularTable(attributes, n - 1);
      TreeStep(attributes, n);
      EndsAgreeWithoutGaps(attributes, n - 1);
      EndsStep(attributes, n - 1, Catalog.Tree(attributes[..n - 1]).value);
    } else {
      NothingRelated(attributes);
    }
  }

  lemma {:induction false} RegularTable(attributes: seq<Attribute>, n: nat)
    requires Regular(attributes) && n < |attributes|
    ensures Catalog.AttributesOk(attributes) && attributes[n].handle > 0
    ensures forall k :: 0 <= k <= |attributes| ==> Catalog.AttributesOk(attributes[..k])
  {
    assert Catalog.AttributeOk(attributes[n]);
  }

  lemma {:induction false} NothingRelated(attributes: seq<Attribute>)
    requires Regular(attributes)
    ensures Catalog.AttributesOk(attributes[..0])
    ensures Catalog.Tree(attributes[..0]) == Some([])
    ensures EndsRelated(attributes, 0, [])
  {
  }

  // ----- What discovery compares -----

  function StripDescriptor(d: Descriptor): Descriptor {
    d.(permissions := 0, keySize := 0)
  }

  function StripDescriptors(ds: seq<Descriptor>): (r: seq<Descriptor>)
    ensures |r| == |ds| && forall k :: 0 <= k < |ds| ==> r[k] == StripDescriptor(ds[k])
  {
    seq(|ds|, k requires 0 <= k < |ds| => StripDescriptor(ds[k]))
  }

  function StripCharacteristic(c: Characteristic): Characteristic {
    c.(permissions := 0, keySize := 0, descriptors := StripDescriptors(c.descriptors))
  }

  function StripCharacteristics(cs: seq<Characteristic>): (r: seq<Characteristic>)
    ensures |r| == |cs| && forall j :: 0 <= j < |cs| ==> r[j] == StripCharacteristic(cs[j])
  {
    seq(|cs|, j requires 0 <= j < |cs| => StripCharacteristic(cs[j]))
  }

  function StripService(s: Service): Service {
    s.(characteristics := StripCharacteristics(s.characteristics))
  }

  /** A tree without what ATT discovery cannot see. */
  function Stripped(services: seq<Service>): (r: seq<Service>)
    ensures |r| == |services| && forall i :: 0 <= i < |services| ==> r[i] == StripService(services[i])
  {
    seq(|services|, i requires 0 <= i < |services| => StripService(services[i]))
  }

  function FoundDescriptors(items: seq<Item>): (r: seq<Descriptor>)
    ensures |r| == |items| && forall k :: 0 <= k < |items| ==> r[k] == Descriptor(items[k].key, items[k].uuid, 0, 0)
  {
    seq(|items|, k requires 0 <= k < |items| => Descriptor(items[k].key, items[k].uuid, 0, 0))
  }

  function FoundCharacteristics(items: seq<Item>, descriptors: seq<seq<Item>>): (r: seq<Characteristic>)
    requires |items| == |descriptors|
    ensures |r| == |items| && forall j :: 0 <= j < |items| ==>
      r[j] == Characteristic(items[j].key, items[j].reach, items[j].properties, items[j].uuid,
        FoundDescriptors(descriptors[j]), 0, 0)
  {
    seq(|items|, j requires 0 <= j < |items| =>
      Characteristic(items[j].key, items[j].reach, items[j].properties, items[j].uuid,
        FoundDescriptors(descriptors[j]), 0, 0))
  }

  function FoundService(g: Item, items: seq<Item>, descriptors: seq<seq<Item>>): Service
    requires |items| == |descriptors|
  {
    Service(g.key, g.reach, g.uuid, FoundCharacteristics(items, descriptors))
  }

  /** The discovered tree, as the client keeps it. */
  function FoundTree(f: Found): (r: seq<Service>)
    requires WellFormed(f)
    ensures |r| == |f.services|
    ensures forall i :: 0 <= i < |f.services| ==>
      && |f.characteristics[i]| == |f.descriptors[i]|
      && r[i] == FoundService(f.services[i], f.characteristics[i], f.descriptors[i])
  {
    assert forall i :: 0 <= i < |f.services| ==>
      DescriptorsOk(f.characteristics[i], f.services[i].reach, f.descriptors[i]);
    seq(|f.services|,
      i requires 0 <= i < |f.services| => FoundService(f.services[i], f.characteristics[i], f.descriptors[i]))
  }

  /** What the client keeps of a service is what was published for it, its end aside. */
  lemma {:induction false} ServiceAgrees(s: Service, g: Item, lists: Lists, items: seq<Item>,
        descriptors: seq<seq<Item>>)
    requires Matches(s, g, lists.characteristics, lists.information) && FindsService(lists, g, items, descriptors)
    ensures StripService(s) == FoundService(g, items, descriptors).(end := s.end)
  {
    var cs := s.characteristics;
    assert items == CharacteristicItems(cs);
    forall j | 0 <= j < |cs|
      ensures StripCharacteristic(cs[j]) == FoundCharacteristics(items, descriptors)[j]
    {
      assert DescriptorsMatch(cs, j, g.reach, lists.information);
      assert LastHandle(items, j, g.reach) == EndOf(cs, j, g.reach);
      assert descriptors[j] == DescriptorItems(cs[j].descriptors);
      assert StripDescriptors(cs[j].descriptors) == FoundDescriptors(descriptors[j]);
    }
    assert StripCharacteristics(cs) == FoundCharacteristics(items, descriptors);
  }

  lemma {:induction false} TreesAgree(services: seq<Service>, lists: Lists, f: Found)
    requires WellFormed(f) && MatchesAll(services, lists) && Finds(lists, f)
    ensures Stripped(services) == FoundTree(f) <==> EndsAgree(services, lists.groups)
  {
    hide Matches, FindsService, InRange, StripService, FoundService, DescriptorsOk;
    var tree := FoundTree(f);
    forall i | 0 <= i < |services|
      ensures |f.characteristics[i]| == |f.descriptors[i]|
      ensures StripService(services[i]) == FoundTree(f)[i].(end := services[i].end)
      ensures FoundTree(f)[i].end == lists.groups[i].reach
      ensures StripService(services[i]).end == services[i].end
    {
      assert tree[i] == FoundService(f.services[i], f.characteristics[i], f.descriptors[i]);
      ServiceAgrees(services[i], lists.groups[i], lists, f.characteristics[i], f.descriptors[i]);
      FoundEnd(lists.groups[i], f.characteristics[i], f.descriptors[i], services[i]);
    }
    if Stripped(services) == FoundTree(f) {
      forall i | 0 <= i < |services|
        ensures services[i].end == lists.groups[i].reach
      {
        assert Stripped(services)[i] == FoundTree(f)[i];
      }
    }
    if EndsAgree(services, lists.groups) {
      assert Stripped(services) == FoundTree(f);
    }
  }

  lemma {:induction false} FoundEnd(g: Item, items: seq<Item>, descriptors: seq<seq<Item>>, s: Service)
    requires |items| == |descriptors|
    ensures FoundService(g, items, descriptors).end == g.reach
    ensures StripService(s).end == s.end
  {
  }

  /**
    Against every truthful server, however it cuts its responses, discovery succeeds; and what it finds is the published
    tree (the permissions aside, which ATT does not show) if and only if no handle is skipped right before a service.
   */
  lemma {:induction false} DiscoveryReproducesCatalog(attributes: seq<Attribute>, server: Server)
    requires Regular(attributes) && attributes != [] && Catalog.Tree(attributes).Some?
    requires Conforms(server, ListsOf(attributes, |attributes|))
    ensures Discover(server).Some? && WellFormed(Discover(server).value)
    ensures Stripped(Catalog.Tree(attributes).value) == FoundTree(Discover(server).value) <==>
      NoGaps(attributes, |attributes|)
  {
    hide *;
    var n := |attributes|;
    var lists := ListsOf(attributes, n);
    RegularTable(attributes, n - 1);
    TableFits(attributes);
    DiscoveryFindsAll(server, lists);
    DiscoveryIsWellFormed(server);
    assert n > 0 && attributes[..n] == attributes;
    EndsAgreeWithoutGaps(attributes, n);
    EndsOf(attributes, Catalog.Tree(attributes).value);
    TreesAgree(Catalog.Tree(attributes).value, lists, Discover(server).value);
  }

  lemma {:induction false} EndsOf(attributes: seq<Attribute>, services: seq<Service>)
    requires EndsRelated(attributes, |attributes|, services)
    ensures EndsAgree(services, ListsOf(attributes, |attributes|).groups) <==> NoGaps(attributes, |attributes|)
  {
  }
}
