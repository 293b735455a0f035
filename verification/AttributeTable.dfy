/**
  The two readings of one attribute table: the service tree that the catalog parser builds from its
  entries in order, and the lists that an ATT server reports from the same entries.
 */
module AttributeTable {
  import opened Bits
  import opened GattBytes
  import opened Discovery
  import opened ConformingServer
  import Catalog

  type Attribute = Catalog.Attribute

  predicate IsDeclaration(uuid: Bytes) {
    uuid == PRIMARY || uuid == SECONDARY || uuid == INCLUDE || uuid == CHARACTERISTIC
  }

  /** A characteristic declaration is followed by its value; include declarations come first in their service. */
  predicate RegularAt(attributes: seq<Attribute>, i: nat)
    requires i < |attributes|
  {
    var a := attributes[i];
    && (a.uuid == CHARACTERISTIC ==>
          && |a.value| >= 5
          && i + 1 < |attributes|
          && !IsDeclaration(attributes[i + 1].uuid)
          && ReadLe16(a.value[1..]) == attributes[i + 1].handle)
    && (a.uuid == INCLUDE ==> i > 0 && (attributes[i - 1].uuid == PRIMARY || attributes[i - 1].uuid == INCLUDE))
  }

  predicate Regular(attributes: seq<Attribute>) {
    && Catalog.AttributesOk(attributes) && Catalog.Rising(attributes)
    && forall i :: 0 <= i < |attributes| ==> RegularAt(attributes, i)
  }

  // ----- The server's lists -----

  /** The handle before position `n`: nothing seen so far lies beyond it. */
  function Seen(attributes: seq<Attribute>, n: nat): nat
    requires n <= |attributes|
  {
    if n == 0 then 0 else attributes[n - 1].handle
  }

  /** Primary services: a group ends with the last attribute before the next service, the last one at 0xFFFF. */
  function GroupList(attributes: seq<Attribute>, n: nat): seq<Item>
    requires n <= |attributes|
  {
    if n == 0 then []
    else
      var before, a := GroupList(attributes, n - 1), attributes[n - 1];
      if a.uuid != PRIMARY then before
      else Closed(before, Seen(attributes, n - 1)) + [Item(a.handle, TOP, 0, a.value)]
  }

  function Closed(groups: seq<Item>, end: nat): (r: seq<Item>)
    ensures |r| == |groups|
  {
    if groups == [] then [] else groups[..|groups| - 1] + [groups[|groups| - 1].(reach := end)]
  }

  function CharacteristicItem(a: Attribute): Item
    requires |a.value| >= 3
  {
    Item(a.handle, ReadLe16(a.value[1..]), a.value[0], a.value[3..])
  }

  function CharacteristicList(attributes: seq<Attribute>, n: nat): seq<Item>
    requires n <= |attributes|
  {
    if n == 0 then []
    else
      var before, a := CharacteristicList(attributes, n - 1), attributes[n - 1];
      if a.uuid == CHARACTERISTIC && |a.value| >= 3 then before + [CharacteristicItem(a)] else before
  }

  function InformationList(attributes: seq<Attribute>, n: nat): seq<Item>
    requires n <= |attributes|
  {
    if n == 0 then []
    else
      var a := attributes[n - 1];
      InformationList(attributes, n - 1) + [Item(a.handle, a.handle, 0, a.uuid)]
  }

  function ListsOf(attributes: seq<Attribute>, n: nat): Lists
    requires n <= |attributes|
  {
    Lists(GroupList(attributes, n), CharacteristicList(attributes, n), InformationList(attributes, n))
  }

  predicate KeysUpTo(items: seq<Item>, top: nat) {
    forall i :: 0 <= i < |items| ==> 1 <= items[i].key <= top
  }

  lemma {:induction false} SeenGrows(attributes: seq<Attribute>, n: nat)
    requires Regular(attributes) && n < |attributes|
    ensures Seen(attributes, n) < attributes[n].handle <= TOP
  {
    assert Catalog.AttributeOk(attributes[n]);
    if n > 0 { assert attributes[n - 1].handle < attributes[n].handle; }
  }

  lemma {:induction false} KeysSeen(attributes: seq<Attribute>, n: nat)
    requires Regular(attributes) && n <= |attributes|
    ensures KeysUpTo(GroupList(attributes, n), Seen(attributes, n))
    ensures KeysUpTo(CharacteristicList(attributes, n), Seen(attributes, n))
    ensures KeysUpTo(InformationList(attributes, n), Seen(attributes, n))
  {
    if n > 0 {
      KeysSeen(attributes, n - 1);
      SeenGrows(attributes, n - 1);
    }
  }

  // ----- Visibility as a list grows -----

  lemma {:induction false} VisibleAppend(items: seq<Item>, item: Item, start: nat, limit: int)
    ensures Visible(items + [item], start, limit) ==
      Visible(items, start, limit) + (if start <= item.key <= limit then [item] else [])
  {
    hide Visible;
    var shown := if start <= item.key <= limit then [item] else [];
    VisibleHead(items + [item], start, limit);
    if items == [] {
      assert items + [item] == [item] && [item][1..] == [];
      VisibleNothing(start, limit);
      assert shown + [] == shown && [] + shown == shown;
    } else {
      VisibleHead(items, start, limit);
      VisibleAppend(items[1..], item, start, limit);
      assert (items + [item])[1..] == items[1..] + [item] && (items + [item])[0] == items[0];
      var head, rest := if start <= items[0].key <= limit then [items[0]] else [], Visible(items[1..], start, limit);
      assert head + (rest + shown) == head + rest + shown;
    }
  }

  lemma {:induction false} VisibleNothing(start: nat, limit: int)
    ensures Visible([], start, limit) == []
  {
  }

  lemma {:induction false} VisibleHead(items: seq<Item>, start: nat, limit: int)
    requires items != []
    ensures Visible(items, start, limit) ==
      (if start <= items[0].key <= limit then [items[0]] else []) + Visible(items[1..], start, limit)
  {
    assert [] + Visible(items[1..], start, limit) == Visible(items[1..], start, limit);
  }

  /** Beyond the last key a range may end anywhere. */
  lemma {:induction false} VisibleLimits(items: seq<Item>, start: nat, top: nat, limit: int, other: int)
    requires KeysUpTo(items, top) && top <= limit && top <= other
    ensures Visible(items, start, limit) == Visible(items, start, other)
  {
    if items != [] { VisibleLimits(items[1..], start, top, limit, other); }
  }

  lemma {:induction false} VisibleBeyond(items: seq<Item>, top: nat, start: nat, limit: int)
    requires KeysUpTo(items, top) && start > top
    ensures Visible(items, start, limit) == []
  {
    if items != [] { VisibleBeyond(items[1..], top, start, limit); }
  }

  // ----- One service in both readings -----

  function CharacteristicItems(cs: seq<Characteristic>): (r: seq<Item>)
    ensures |r| == |cs|
    ensures forall j :: 0 <= j < |cs| ==> r[j] == Item(cs[j].declaration, cs[j].handle, cs[j].properties, cs[j].uuid)
  {
    seq(|cs|, j requires 0 <= j < |cs| => Item(cs[j].declaration, cs[j].handle, cs[j].properties, cs[j].uuid))
  }

  function DescriptorItems(ds: seq<Descriptor>): (r: seq<Item>)
    ensures |r| == |ds| && forall j :: 0 <= j < |ds| ==> r[j] == Item(ds[j].handle, ds[j].handle, 0, ds[j].uuid)
  {
    seq(|ds|, j requires 0 <= j < |ds| => Item(ds[j].handle, ds[j].handle, 0, ds[j].uuid))
  }

  /** The last handle belonging to characteristic `j` of a service that ends at `end`. */
  function EndOf(cs: seq<Characteristic>, j: nat, end: nat): int
    requires j < |cs|
  {
    if j + 1 < |cs| then cs[j + 1].declaration - 1 else end
  }

  predicate DescriptorsMatch(cs: seq<Characteristic>, j: nat, end: nat, information: seq<Item>)
    requires j < |cs|
  {
    DescriptorItems(cs[j].descriptors) == Visible(information, cs[j].handle + 1, EndOf(cs, j, end))
  }

  /** Everything in the parsed service is what the server reports for the handles of the group. */
  predicate Matches(s: Service, g: Item, characteristics: seq<Item>, information: seq<Item>) {
    && s.start == g.key && s.uuid == g.uuid && g.properties == 0
    && CharacteristicItems(s.characteristics) == Visible(characteristics, g.key, g.reach)
    && forall j :: 0 <= j < |s.characteristics| ==> DescriptorsMatch(s.characteristics, j, g.reach, information)
  }

  lemma {:induction false} DeclarationsVisible(s: Service, g: Item, characteristics: seq<Item>,
        information: seq<Item>, j: nat)
    requires Matches(s, g, characteristics, information) && j < |s.characteristics|
    ensures g.key <= s.characteristics[j].declaration <= g.reach
    ensures CharacteristicItems(s.characteristics)[j] in characteristics
  {
    VisibleIn(characteristics, g.key, g.reach, j);
  }

  /** A service that has ended does not see later attributes. */
  lemma {:induction false} KeepMatches(s: Service, g: Item, cs: seq<Item>, more: seq<Item>, information: seq<Item>,
        item: Item)
    requires Matches(s, g, cs, information) && g.reach < item.key
    requires more == cs || exists c: Item :: more == cs + [c] && c.key == item.key
    ensures Matches(s, g, more, information + [item])
  {
    if more != cs {
      var c: Item :| more == cs + [c] && c.key == item.key;
      VisibleAppend(cs, c, g.key, g.reach);
    }
    forall j | 0 <= j < |s.characteristics|
      ensures DescriptorsMatch(s.characteristics, j, g.reach, information + [item])
    {
      assert DescriptorsMatch(s.characteristics, j, g.reach, information);
      if j + 1 < |s.characteristics| { DeclarationsVisible(s, g, cs, information, j + 1); }
      VisibleAppend(information, item, s.characteristics[j].handle + 1, EndOf(s.characteristics, j, g.reach));
    }
  }

  /** Ending the open service at the last handle seen hides nothing. */
  lemma {:induction false} CloseMatches(s: Service, g: Item, cs: seq<Item>, information: seq<Item>, top: nat, end: nat)
    requires Matches(s, g, cs, information) && KeysUpTo(cs, top) && KeysUpTo(information, top) && top <= g.reach
    ensures Matches(s.(end := end), g.(reach := top), cs, information)
  {
    VisibleLimits(cs, g.key, top, g.reach, top);
    forall j | 0 <= j < |s.characteristics|
      ensures DescriptorsMatch(s.characteristics, j, top, information)
    {
      assert DescriptorsMatch(s.characteristics, j, g.reach, information);
      if j + 1 == |s.characteristics| {
        VisibleLimits(information, s.characteristics[j].handle + 1, top, g.reach, top);
      }
    }
  }

  lemma {:induction false} NewMatches(a: Attribute, cs: seq<Item>, information: seq<Item>, top: nat)
    requires KeysUpTo(cs, top) && top < a.handle
    ensures Matches(Service(a.handle, TOP, a.value, []), Item(a.handle, TOP, 0, a.value), cs, information)
  {
    VisibleBeyond(cs, top, a.handle, TOP);
  }
}
