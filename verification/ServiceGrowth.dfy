/** One attribute in both readings: what the parser adds to its open service, the server's lists show for it. */
module ServiceGrowth {
  import opened Bits
  import opened GattBytes
  import opened Discovery
  import opened ConformingServer
  import opened AttributeTable
  import Catalog

  function InformationItem(a: Attribute): Item {
    Item(a.handle, a.handle, 0, a.uuid)
  }

  /** The characteristics before the last one keep their descriptors. */
  lemma {:induction false} KeepDescriptors(cs: seq<Characteristic>, after: seq<Characteristic>, j: nat, end: nat,
        information: seq<Item>, item: Item)
    requires j + 1 < |cs| <= |after| && DescriptorsMatch(cs, j, end, information)
    requires after[j] == cs[j] && after[j + 1].declaration == cs[j + 1].declaration <= item.key
    ensures DescriptorsMatch(after, j, end, information + [item])
  {
    VisibleAppend(information, item, cs[j].handle + 1, EndOf(cs, j, end));
  }

  predicate OpenMatches(s: Service, g: Item, cs: seq<Item>, information: seq<Item>, top: nat) {
    && Matches(s, g, cs, information) && g.reach == TOP
    && KeysUpTo(cs, top) && KeysUpTo(information, top)
  }

  lemma {:induction false} DeclarationsBelow(s: Service, g: Item, cs: seq<Item>, information: seq<Item>, top: nat,
        j: nat)
    requires OpenMatches(s, g, cs, information, top) && j < |s.characteristics|
    ensures s.characteristics[j].declaration <= top
  {
    DeclarationsVisible(s, g, cs, information, j);
    var k :| 0 <= k < |cs| && cs[k] == CharacteristicItems(s.characteristics)[j];
  }

  lemma {:induction false} KeepAllDescriptors(s: Service, g: Item, cs: seq<Item>, information: seq<Item>, top: nat,
        after: seq<Characteristic>, item: Item)
    requires OpenMatches(s, g, cs, information, top) && top <= item.key && |s.characteristics| <= |after|
    requires forall j :: 0 <= j < |s.characteristics| - 1 ==> after[j] == s.characteristics[j]
    requires s.characteristics != [] ==>
      after[|s.characteristics| - 1].declaration == s.characteristics[|s.characteristics| - 1].declaration
    ensures forall j :: 0 <= j < |s.characteristics| - 1 ==> DescriptorsMatch(after, j, TOP, information + [item])
  {
    forall j | 0 <= j < |s.characteristics| - 1
      ensures DescriptorsMatch(after, j, TOP, information + [item])
    {
      DeclarationsBelow(s, g, cs, information, top, j + 1);
      KeepDescriptors(s.characteristics, after, j, TOP, information, item);
    }
  }

  lemma {:induction false} AddCharacteristic(s: Service, g: Item, cs: seq<Item>, information: seq<Item>, top: nat,
        a: Attribute)
    requires OpenMatches(s, g, cs, information, top) && top < a.handle <= TOP && g.key <= a.handle
    requires |a.value| >= 3 && ReadLe16(a.value[1..]) > a.handle
    ensures var c := Characteristic(a.handle, ReadLe16(a.value[1..]), a.value[0], a.value[3..], [], 0, 0);
      Matches(s.(characteristics := s.characteristics + [c]), g, cs + [CharacteristicItem(a)],
        information + [InformationItem(a)])
  {
    var c := Characteristic(a.handle, ReadLe16(a.value[1..]), a.value[0], a.value[3..], [], 0, 0);
    hide KeysUpTo, DescriptorsMatch, Visible, ReadLe16, CharacteristicItems;
    CharacteristicShown(s, g, cs, a, c);
    CharacteristicEnds(s, g, cs, information, top, a, c);
  }

  lemma {:induction false} CharacteristicShown(s: Service, g: Item, cs: seq<Item>, a: Attribute, c: Characteristic)
    requires |a.value| >= 3 && g.key <= a.handle <= g.reach
    requires c.declaration == a.handle && c.handle == ReadLe16(a.value[1..])
    requires c.properties == a.value[0] && c.uuid == a.value[3..]
    requires CharacteristicItems(s.characteristics) == Visible(cs, g.key, g.reach)
    ensures CharacteristicItems(s.characteristics + [c]) == Visible(cs + [CharacteristicItem(a)], g.key, g.reach)
  {
    hide Visible, ReadLe16;
    VisibleAppend(cs, CharacteristicItem(a), g.key, g.reach);
    assert CharacteristicItems(s.characteristics + [c]) ==
      CharacteristicItems(s.characteristics) + [CharacteristicItem(a)];
  }

  lemma {:induction false} CharacteristicEnds(s: Service, g: Item, cs: seq<Item>, information: seq<Item>, top: nat,
        a: Attribute, c: Characteristic)
    requires OpenMatches(s, g, cs, information, top) && top < a.handle <= TOP
    requires c.declaration == a.handle < c.handle && c.descriptors == []
    ensures forall j :: 0 <= j <= |s.characteristics| ==>
      DescriptorsMatch(s.characteristics + [c], j, TOP, information + [InformationItem(a)])
  {
    hide KeysUpTo, DescriptorsMatch, Visible, CharacteristicItems;
    var earlier, after := s.characteristics, s.characteristics + [c];
    KeepAllDescriptors(s, g, cs, information, top, after, InformationItem(a));
    if earlier != [] {
      assert DescriptorsMatch(earlier, |earlier| - 1, TOP, information);
      EndDescriptors(earlier, after, information, top, InformationItem(a));
    }
    NoDescriptors(after, information, top, InformationItem(a));
  }

  /** The next declaration ends the descriptors of the characteristic before it. */
  lemma {:induction false} EndDescriptors(earlier: seq<Characteristic>, after: seq<Characteristic>,
        information: seq<Item>, top: nat, item: Item)
    requires 0 < |earlier| == |after| - 1 && after[|earlier| - 1] == earlier[|earlier| - 1]
    requires after[|earlier|].declaration == item.key
    requires KeysUpTo(information, top) && top < item.key && top <= TOP
    requires DescriptorsMatch(earlier, |earlier| - 1, TOP, information)
    ensures DescriptorsMatch(after, |earlier| - 1, TOP, information + [item])
  {
    var start := earlier[|earlier| - 1].handle + 1;
    VisibleLimits(information, start, top, TOP, item.key - 1);
    VisibleAppend(information, item, start, item.key - 1);
  }

  /** A characteristic whose value is still to come has no descriptors. */
  lemma {:induction false} NoDescriptors(after: seq<Characteristic>, information: seq<Item>, top: nat, item: Item)
    requires after != [] && KeysUpTo(information, top) && top < item.key < after[|after| - 1].handle
    requires after[|after| - 1].descriptors == []
    ensures DescriptorsMatch(after, |after| - 1, TOP, information + [item])
  {
    var start := after[|after| - 1].handle + 1;
    VisibleBeyond(information, top, start, TOP);
    VisibleAppend(information, item, start, TOP);
  }

  /** The value attribute is no descriptor; it only brings the permissions. */
  lemma {:induction false} AddValue(s: Service, g: Item, cs: seq<Item>, information: seq<Item>, top: nat,
        a: Attribute, c: Characteristic)
    requires OpenMatches(s, g, cs, information, top) && top < a.handle <= TOP && s.characteristics != []
    requires var last := s.characteristics[|s.characteristics| - 1];
      last.handle == a.handle && c == last.(permissions := c.permissions, keySize := c.keySize)
    ensures Matches(s.(characteristics := s.characteristics[..|s.characteristics| - 1] + [c]), g, cs,
      information + [InformationItem(a)])
  {
    var j := |s.characteristics| - 1;
    var after := s.characteristics[..j] + [c];
    assert CharacteristicItems(after) == CharacteristicItems(s.characteristics);
    KeepAllDescriptors(s, g, cs, information, top, after, InformationItem(a));
    assert DescriptorsMatch(s.characteristics, j, TOP, information);
    VisibleAppend(information, InformationItem(a), c.handle + 1, TOP);
    assert DescriptorsMatch(after, j, TOP, information + [InformationItem(a)]);
  }

  lemma {:induction false} AddDescriptor(s: Service, g: Item, cs: seq<Item>, information: seq<Item>, top: nat,
        a: Attribute)
    requires OpenMatches(s, g, cs, information, top) && top < a.handle <= TOP && s.characteristics != []
    requires s.characteristics[|s.characteristics| - 1].handle < a.handle
    ensures var last := s.characteristics[|s.characteristics| - 1];
      var c := last.(descriptors := last.descriptors + [Descriptor(a.handle, a.uuid, a.permissions, a.keySize)]);
      Matches(s.(characteristics := s.characteristics[..|s.characteristics| - 1] + [c]), g, cs,
        information + [InformationItem(a)])
  {
    var j := |s.characteristics| - 1;
    var last := s.characteristics[j];
    var c := last.(descriptors := last.descriptors + [Descriptor(a.handle, a.uuid, a.permissions, a.keySize)]);
    var after := s.characteristics[..j] + [c];
    assert CharacteristicItems(after) == CharacteristicItems(s.characteristics);
    KeepAllDescriptors(s, g, cs, information, top, after, InformationItem(a));
    assert DescriptorsMatch(s.characteristics, j, TOP, information);
    VisibleAppend(information, InformationItem(a), c.handle + 1, TOP);
    assert DescriptorItems(c.descriptors) == DescriptorItems(last.descriptors) + [InformationItem(a)];
    assert DescriptorsMatch(after, j, TOP, information + [InformationItem(a)]);
  }

  /** One attribute that is not a service declaration, in the open service. */
  lemma {:induction false} AddInside(before: seq<Service>, g: Item, cs: seq<Item>, information: seq<Item>, top: nat,
        a: Attribute)
    requires before != [] && OpenMatches(before[|before| - 1], g, cs, information, top)
    requires top < a.handle <= TOP && g.key <= a.handle
    requires a.uuid != PRIMARY && Catalog.AddAttribute(before, a).Some?
    requires a.uuid == INCLUDE ==> before[|before| - 1].characteristics == []
    ensures var after := Catalog.AddAttribute(before, a).value;
      && |after| == |before|
      && (forall i :: 0 <= i < |before| - 1 ==> after[i] == before[i])
      && after[|after| - 1].end == before[|before| - 1].end
      && Matches(after[|after| - 1], g,
           if a.uuid == CHARACTERISTIC && |a.value| >= 3 then cs + [CharacteristicItem(a)] else cs,
                 information + [InformationItem(a)])
  {
    hide Matches, KeysUpTo;
    var s := before[|before| - 1];
    if a.uuid == CHARACTERISTIC {
      AddCharacteristic(s, g, cs, information, top, a);
    } else if a.uuid == INCLUDE {
      AddInclude(s, g, cs, information, InformationItem(a));
    } else {
      var last := s.characteristics[|s.characteristics| - 1];
      if a.handle == last.handle {
        AddValue(s, g, cs, information, top, a, last.(permissions := a.permissions, keySize := a.keySize));
      } else {
        AddDescriptor(s, g, cs, information, top, a);
      }
    }
  }

  lemma {:induction false} AddInclude(s: Service, g: Item, cs: seq<Item>, information: seq<Item>, item: Item)
    requires Matches(s, g, cs, information) && s.characteristics == []
    ensures Matches(s, g, cs, information + [item])
  {
  }
}
