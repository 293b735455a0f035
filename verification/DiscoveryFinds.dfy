/** Against a truthful server, discovery reads its whole attribute table, however the server cuts its responses. */
module DiscoveryFinds {
  import opened Bits
  import opened GattBytes
  import opened Discovery
  import opened ConformingServer

  function DescriptorsAt(lists: Lists, characteristics: seq<Item>, j: nat, end: nat): seq<Item>
    requires j < |characteristics|
  {
    Visible(lists.information, characteristics[j].reach + 1, LastHandle(characteristics, j, end))
  }

  function CharacteristicsOf(lists: Lists, group: Item): seq<Item> {
    Visible(lists.characteristics, group.key, group.reach)
  }

  /** A service within the client's limits, whose characteristics keep their values inside it. */
  predicate ServiceFits(lists: Lists, group: Item) {
    var characteristics := CharacteristicsOf(lists, group);
    && |characteristics| <= MAX_CHARACTERISTICS
    && (forall j :: 0 <= j < |characteristics| ==> characteristics[j].reach <= group.reach)
    && (forall j :: 0 <= j < |characteristics| ==>
         |DescriptorsAt(lists, characteristics, j, group.reach)| <= MAX_DESCRIPTORS)
  }

  predicate Fitting(lists: Lists) {
    && 0 < |lists.groups| <= MAX_SERVICES
    && (forall i :: 0 <= i < |lists.groups| ==> lists.groups[i].key >= 1 && ServiceFits(lists, lists.groups[i]))
  }

  predicate FindsService(lists: Lists, group: Item, characteristics: seq<Item>, descriptors: seq<seq<Item>>) {
    && characteristics == CharacteristicsOf(lists, group)
    && |descriptors| == |characteristics|
    && forall j :: 0 <= j < |characteristics| ==>
         descriptors[j] == DescriptorsAt(lists, characteristics, j, group.reach)
  }

  /** The discovered tree holds everything the server reports, in its place. */
  predicate Finds(lists: Lists, f: Found) {
    && f.services == lists.groups
    && |f.characteristics| == |f.services|
    && |f.descriptors| == |f.services|
    && forall i :: 0 <= i < |f.services| ==> FindsService(lists, f.services[i], f.characteristics[i], f.descriptors[i])
  }

  lemma {:induction false} VisibleWhole(items: seq<Item>, start: nat, limit: int)
    requires forall i :: 0 <= i < |items| ==> start <= items[i].key <= limit
    ensures Visible(items, start, limit) == items
  {
    if items != [] { VisibleWhole(items[1..], start, limit); }
  }

  lemma {:induction false} VisibleInEmptyRange(items: seq<Item>, start: nat, limit: int)
    requires start > limit
    ensures Visible(items, start, limit) == []
  {
    if items != [] { VisibleInEmptyRange(items[1..], start, limit); }
  }

  lemma {:induction false} SortedLists(server: Server, lists: Lists)
    requires Conforms(server, lists)
    ensures Sorted(Groups, lists.groups)
    ensures Sorted(Characteristics, lists.characteristics)
    ensures Sorted(Information, lists.information)
  {
    assert Sorted(Groups, ListOf(lists, Groups)) && Sorted(Characteristics, ListOf(lists, Characteristics))
      && Sorted(Information, ListOf(lists, Information));
  }

  lemma {:induction false} GroupsInRange(server: Server, lists: Lists)
    requires Conforms(server, lists) && Fitting(lists)
    ensures ServicesOk(lists.groups)
    ensures Visible(lists.groups, 1, TOP) == lists.groups
  {
    SortedLists(server, lists);
    var groups := lists.groups;
    forall i | 0 <= i < |groups|
      ensures 1 <= groups[i].key <= groups[i].reach <= TOP
    {
      assert ItemOk(Groups, groups[i]);
    }
    hide Conforms;
    VisibleWhole(groups, 1, TOP);
  }

  lemma {:induction false} GroupsFound(server: Server, lists: Lists)
    requires Conforms(server, lists) && Fitting(lists)
    ensures Search(server, 0, Groups, 1, TOP, []).0 == Some(lists.groups)
  {
    hide Conforms, Search, Visible;
    GroupsInRange(server, lists);
    assert [] + lists.groups == lists.groups;
    SearchFindsAll(server, lists, 0, Groups, 1, TOP, []);
  }

  lemma {:induction false} ServiceCharacteristicsFound(server: Server, lists: Lists, n: nat, group: Item)
    requires Conforms(server, lists) && ServiceFits(lists, group) && group.key <= group.reach <= TOP
    ensures Search(server, n, Characteristics, group.key, group.reach, []).0 == Some(CharacteristicsOf(lists, group))
  {
    hide Conforms, Search, Visible, DescriptorsAt;
    assert [] + CharacteristicsOf(lists, group) == CharacteristicsOf(lists, group);
    SearchFindsAll(server, lists, n, Characteristics, group.key, group.reach, []);
  }

  lemma {:induction false} CharacteristicsFound(server: Server, lists: Lists, n: nat, i: nat)
    requires Conforms(server, lists) && Fitting(lists) && ServicesOk(lists.groups) && i <= |lists.groups|
    ensures var r := AllCharacteristics(server, n, lists.groups, i).0;
      r.Some? && forall k :: 0 <= k < i ==> r.value[k] == CharacteristicsOf(lists, lists.groups[k])
  {
    hide Conforms, ServiceFits, Search, CharacteristicsOf;
    if i > 0 {
      CharacteristicsFound(server, lists, n, i - 1);
      ServiceCharacteristicsFound(server, lists, AllCharacteristics(server, n, lists.groups, i - 1).1,
        lists.groups[i - 1]);
    }
  }

  lemma {:induction false} OneDescriptorsFound(server: Server, lists: Lists, n: nat, characteristics: seq<Item>,
        j: nat, end: nat)
    requires Conforms(server, lists) && j < |characteristics|
    requires characteristics[j].reach <= LastHandle(characteristics, j, end) <= TOP
    requires |DescriptorsAt(lists, characteristics, j, end)| <= MAX_DESCRIPTORS
    ensures SearchDescriptors(server, n, characteristics, j, end).0 ==
      Some(DescriptorsAt(lists, characteristics, j, end))
  {
    var first, last := characteristics[j].reach + 1, LastHandle(characteristics, j, end);
    SortedLists(server, lists);
    hide Conforms, Search, Visible, LastHandle;
    if first > last {
      VisibleInEmptyRange(lists.information, first, last);
    } else {
      var all := Visible(lists.information, first, last);
      forall i | 0 <= i < |all|
        ensures all[i].reach <= last
      {
        VisibleIn(lists.information, first, last, i);
        InformationReach(lists.information, all[i]);
      }
      assert [] + all == all;
      SearchFindsAll(server, lists, n, Information, first, last, []);
    }
  }

  lemma {:induction false} InformationReach(items: seq<Item>, item: Item)
    requires Sorted(Information, items) && item in items
    ensures item.reach == item.key
  {
    var i :| 0 <= i < |items| && items[i] == item;
    assert ItemOk(Information, items[i]);
  }

  lemma {:induction false} ServiceDescriptorsFound(server: Server, lists: Lists, n: nat, characteristics: seq<Item>,
        end: nat, start: nat, j: nat)
    requires Conforms(server, lists) && InRange(Characteristics, characteristics, start, end) && end <= TOP
    requires j <= |characteristics|
    requires forall k :: 0 <= k < |characteristics| ==>
      |DescriptorsAt(lists, characteristics, k, end)| <= MAX_DESCRIPTORS
    ensures var r := ServiceDescriptors(server, n, characteristics, end, start, j).0;
      r.Some? && forall k :: 0 <= k < j ==> r.value[k] == DescriptorsAt(lists, characteristics, k, end)
  {
    hide Conforms, DescriptorsAt, SearchDescriptors;
    if j > 0 {
      ServiceDescriptorsFound(server, lists, n, characteristics, end, start, j - 1);
      var m := ServiceDescriptors(server, n, characteristics, end, start, j - 1).1;
      OneDescriptorsFound(server, lists, m, characteristics, j - 1, end);
    }
  }

  lemma {:induction false} DescriptorsFound(server: Server, lists: Lists, n: nat, characteristics: seq<seq<Item>>,
        i: nat)
    requires Conforms(server, lists) && Fitting(lists) && ServicesOk(lists.groups)
    requires CharacteristicsOk(lists.groups, characteristics)
    requires (forall k :: 0 <= k < |characteristics| ==>
      characteristics[k] == CharacteristicsOf(lists, lists.groups[k]))
    requires i <= |lists.groups|
    ensures var r := AllDescriptors(server, n, lists.groups, characteristics, i).0;
      r.Some? && forall k :: 0 <= k < i ==> FindsService(lists, lists.groups[k], characteristics[k], r.value[k])
  {
    hide Conforms, CharacteristicsOf, DescriptorsAt, InRange;
    if i > 0 {
      DescriptorsFound(server, lists, n, characteristics, i - 1);
      var m := AllDescriptors(server, n, lists.groups, characteristics, i - 1).1;
      var group := lists.groups[i - 1];
      assert ServiceFits(lists, group);
      GroupEnd(lists.groups, i - 1);
      ServiceDescriptorsFound(server, lists, m, characteristics[i - 1], group.reach, group.key,
        |characteristics[i - 1]|);
    }
  }

  lemma {:induction false} GroupEnd(groups: seq<Item>, i: nat)
    requires ServicesOk(groups) && i < |groups|
    ensures groups[i].key <= groups[i].reach <= TOP
  {
  }

  /** Whatever cuts a truthful server makes, discovery succeeds and finds its whole table. */
  lemma {:induction false} DiscoveryFindsAll(server: Server, lists: Lists)
    requires Conforms(server, lists) && Fitting(lists)
    ensures Discover(server).Some? && Finds(lists, Discover(server).value)
  {
    GroupsInRange(server, lists);
    GroupsFound(server, lists);
    hide Conforms, Search, Fitting, FindsService, AllCharacteristics, AllDescriptors, InRange;
    var n := Search(server, 0, Groups, 1, TOP, []).1;
    CharacteristicsFound(server, lists, n, |lists.groups|);
    CharacteristicsInRange(server, n, lists.groups, |lists.groups|);
    var (characteristics, m) := AllCharacteristics(server, n, lists.groups, |lists.groups|);
    DescriptorsFound(server, lists, m, characteristics.value, |lists.groups|);
  }
}
