/**
  The access rules of the published tree, stated on the attribute list: which attribute each permission and key size
  comes from, and which tables are refused on their account.
 */
module CatalogAccess {
  import opened Bits
  import opened GattBytes
  import opened Catalog

  // ----- On the list -----

  /** The attribute begins a service or a characteristic. */
  predicate Opens(a: Attribute) {
    a.uuid == PRIMARY || a.uuid == CHARACTERISTIC
  }

  /** A value or a descriptor. */
  predicate Plain(a: Attribute) {
    a.uuid != PRIMARY && a.uuid != SECONDARY && a.uuid != CHARACTERISTIC && a.uuid != INCLUDE
  }

  /** Attribute `i` is in the characteristic that attribute `d` declares: nothing new begins up to it. */
  predicate Within(attributes: seq<Attribute>, d: nat, i: nat) {
    && d < i < |attributes|
    && attributes[d].uuid == CHARACTERISTIC
    && forall j :: d < j <= i ==> !Opens(attributes[j])
  }

  /** Attribute `i` is the value that the declaration `d` announces. */
  predicate ValueAt(attributes: seq<Attribute>, d: nat, i: nat) {
    && Within(attributes, d, i)
    && Plain(attributes[i])
    && |attributes[d].value| >= 3
    && attributes[i].handle == ReadLe16(attributes[d].value[1..])
  }

  // ----- In the tree -----

  predicate Declares(a: Attribute, c: Characteristic) {
    && a.uuid == CHARACTERISTIC
    && a.handle == c.declaration
    && |a.value| >= 3
    && a.value == [c.properties] + a.value[1..3] + c.uuid
    && c.handle == ReadLe16(a.value[1..])
  }

  /** The access of a characteristic is that of its value among the first `n` attributes, and none without one. */
  predicate AccessFrom(attributes: seq<Attribute>, n: nat, d: nat, c: Characteristic)
    requires n <= |attributes|
  {
    && (forall i :: d < i < n && ValueAt(attributes, d, i) ==>
          c.permissions == attributes[i].permissions && c.keySize == attributes[i].keySize)
    && ((forall i :: d < i < n ==> !ValueAt(attributes, d, i)) ==> c.permissions == 0 && c.keySize == 0)
  }

  /** A descriptor is one of the characteristic's attributes, with that attribute's access. */
  predicate DescriptorFrom(attributes: seq<Attribute>, n: nat, d: nat, x: Descriptor)
    requires n <= |attributes|
  {
    exists i :: d < i < n && Within(attributes, d, i) && Plain(attributes[i]) && IsDescriptor(attributes[i], x)
  }

  predicate IsDescriptor(a: Attribute, x: Descriptor) {
    x == Descriptor(a.handle, a.uuid, a.permissions, a.keySize)
  }

  predicate CharacteristicFrom(attributes: seq<Attribute>, n: nat, d: nat, c: Characteristic)
    requires n <= |attributes|
  {
    && d < n
    && Declares(attributes[d], c)
    && AccessFrom(attributes, n, d, c)
    && forall x :: x in c.descriptors ==> DescriptorFrom(attributes, n, d, x)
  }

  /** Nothing has begun since attribute `d`. */
  predicate StillOpen(attributes: seq<Attribute>, n: nat, d: nat)
    requires n <= |attributes|
  {
    forall j :: d < j < n ==> !Opens(attributes[j])
  }

  /** The characteristic is declared at some attribute, and it is open if and only if it is the last of the tree. */
  predicate Placed(attributes: seq<Attribute>, n: nat, c: Characteristic, last: bool)
    requires n <= |attributes|
  {
    exists d :: 0 <= d < n && CharacteristicFrom(attributes, n, d, c) && (StillOpen(attributes, n, d) <==> last)
  }

  predicate IsLast(services: seq<Service>, i: nat, k: nat)
    requires i < |services| && k < |services[i].characteristics|
  {
    i == |services| - 1 && k == |services[i].characteristics| - 1
  }

  predicate TreeFrom(attributes: seq<Attribute>, n: nat, services: seq<Service>)
    requires n <= |attributes|
  {
    forall i, k :: 0 <= i < |services| && 0 <= k < |services[i].characteristics| ==>
      Placed(attributes, n, services[i].characteristics[k], IsLast(services, i, k))
  }

  // ----- One attribute more -----

  /** An attribute that is not its value leaves a characteristic as it is. */
  lemma {:induction false} StaysFrom(attributes: seq<Attribute>, n: nat, d: nat, c: Characteristic)
    requires n < |attributes| && CharacteristicFrom(attributes, n, d, c) && !ValueAt(attributes, d, n)
    ensures CharacteristicFrom(attributes, n + 1, d, c)
  {
    hide ValueAt, Within, Declares, Plain, IsDescriptor;
    forall x | x in c.descriptors
      ensures DescriptorFrom(attributes, n + 1, d, x)
    {
      assert DescriptorFrom(attributes, n, d, x);
    }
  }

  /** What begins something new closes the characteristic before it. */
  lemma {:induction false} ClosesAll(attributes: seq<Attribute>, n: nat, c: Characteristic, last: bool)
    requires n < |attributes| && Opens(attributes[n]) && Placed(attributes, n, c, last)
    ensures Placed(attributes, n + 1, c, false)
  {
    hide CharacteristicFrom, Opens;
    var d :| 0 <= d < n && CharacteristicFrom(attributes, n, d, c) && (StillOpen(attributes, n, d) <==> last);
    StaysFrom(attributes, n, d, c);
    assert !StillOpen(attributes, n + 1, d);
  }

  /** A closed characteristic takes no more attributes. */
  lemma {:induction false} StaysClosed(attributes: seq<Attribute>, n: nat, c: Characteristic)
    requires n < |attributes| && Placed(attributes, n, c, false)
    ensures Placed(attributes, n + 1, c, false)
  {
    hide CharacteristicFrom, Opens;
    var d :| 0 <= d < n && CharacteristicFrom(attributes, n, d, c) && !StillOpen(attributes, n, d);
    var j :| d < j < n && Opens(attributes[j]);
    assert !Within(attributes, d, n);
    StaysFrom(attributes, n, d, c);
    assert !StillOpen(attributes, n + 1, d);
  }

  /** An attribute that is neither its value nor a beginning leaves the open characteristic open. */
  lemma {:induction false} StaysOpen(attributes: seq<Attribute>, n: nat, c: Characteristic)
    requires n < |attributes| && Placed(attributes, n, c, true) && !Opens(attributes[n])
    requires !Plain(attributes[n]) || attributes[n].handle != c.handle
    ensures Placed(attributes, n + 1, c, true)
  {
    hide Opens, AccessFrom, DescriptorFrom;
    var d :| 0 <= d < n && CharacteristicFrom(attributes, n, d, c) && StillOpen(attributes, n, d);
    assert !ValueAt(attributes, d, n);
    hide CharacteristicFrom;
    StaysFrom(attributes, n, d, c);
    assert StillOpen(attributes, n + 1, d);
  }

  /** The value attribute of the open characteristic, and no other, brings its access. */
  lemma {:induction false} TakesValue(attributes: seq<Attribute>, n: nat, c: Characteristic)
    requires n < |attributes| && Rising(attributes) && Placed(attributes, n, c, true)
    requires Plain(attributes[n]) && attributes[n].handle == c.handle
    ensures var a := attributes[n];
      Placed(attributes, n + 1, c.(permissions := a.permissions, keySize := a.keySize), true)
  {
    var a := attributes[n];
    var d :| 0 <= d < n && CharacteristicFrom(attributes, n, d, c) && StillOpen(attributes, n, d);
    var after := c.(permissions := a.permissions, keySize := a.keySize);
    ValueIsNext(attributes, n, d, c);
    hide Opens, Plain, Within;
    forall i | d < i < n
      ensures !ValueAt(attributes, d, i)
    {
      assert attributes[i].handle < a.handle;
    }
    forall x | x in after.descriptors
      ensures DescriptorFrom(attributes, n + 1, d, x)
    {
      assert DescriptorFrom(attributes, n, d, x);
    }
    assert CharacteristicFrom(attributes, n + 1, d, after);
  }

  lemma {:induction false} ValueIsNext(attributes: seq<Attribute>, n: nat, d: nat, c: Characteristic)
    requires n < |attributes| && CharacteristicFrom(attributes, n, d, c) && StillOpen(attributes, n, d)
    requires Plain(attributes[n])
    ensures Within(attributes, d, n) && StillOpen(attributes, n + 1, d)
    ensures ValueAt(attributes, d, n) <==> attributes[n].handle == c.handle
  {
    hide AccessFrom, DescriptorFrom;
  }

  /** Any other attribute in it is a descriptor, with its own access. */
  lemma {:induction false} TakesDescriptor(attributes: seq<Attribute>, n: nat, c: Characteristic, x: Descriptor)
    requires n < |attributes| && Placed(attributes, n, c, true)
    requires Plain(attributes[n]) && attributes[n].handle != c.handle && IsDescriptor(attributes[n], x)
    ensures Placed(attributes, n + 1, c.(descriptors := c.descriptors + [x]), true)
  {
    var d :| 0 <= d < n && CharacteristicFrom(attributes, n, d, c) && StillOpen(attributes, n, d);
    ValueIsNext(attributes, n, d, c);
    StaysFrom(attributes, n, d, c);
    hide Opens, Plain, Within, ValueAt, IsDescriptor;
    var after := c.(descriptors := c.descriptors + [x]);
    assert DescriptorFrom(attributes, n + 1, d, x);
    assert CharacteristicFrom(attributes, n + 1, d, after);
  }

  /** A declaration: nothing is known of its value yet. */
  lemma {:induction false} NewCharacteristic(attributes: seq<Attribute>, n: nat, c: Characteristic)
    requires n < |attributes| && Declares(attributes[n], c)
    requires c.descriptors == [] && c.permissions == 0 && c.keySize == 0
    ensures Placed(attributes, n + 1, c, true)
  {
    assert CharacteristicFrom(attributes, n + 1, n, c);
    assert StillOpen(attributes, n + 1, n);
  }

  // ----- The whole tree -----

  /** The characteristics of `after` from the one at `(i, k)` on are old ones or `c` in its place. */
  predicate OnlyLastDiffers(before: seq<Service>, after: seq<Service>, c: Characteristic) {
    && before != [] && |after| == |before|
    && before[|before| - 1].characteristics != []
    && (forall i :: 0 <= i < |before| - 1 ==> after[i] == before[i])
    && var cs := before[|before| - 1].characteristics;
       after[|after| - 1].characteristics == cs[..|cs| - 1] + [c]
  }

  /** The attribute goes to the open characteristic, if to any; the closed ones stay. */
  lemma {:induction false} LastGrows(attributes: seq<Attribute>, n: nat, before: seq<Service>, after: seq<Service>,
                                     c: Characteristic)
    requires n < |attributes| && TreeFrom(attributes, n, before) && OnlyLastDiffers(before, after, c)
    requires Placed(attributes, n + 1, c, true)
    ensures TreeFrom(attributes, n + 1, after)
  {
    hide Placed;
    forall i, k | 0 <= i < |after| && 0 <= k < |after[i].characteristics|
      ensures Placed(attributes, n + 1, after[i].characteristics[k], IsLast(after, i, k))
    {
      if !IsLast(after, i, k) {
        assert after[i].characteristics[k] == before[i].characteristics[k];
        assert Placed(attributes, n, before[i].characteristics[k], IsLast(before, i, k));
        StaysClosed(attributes, n, before[i].characteristics[k]);
      }
    }
  }

  lemma {:induction false} IncludeStays(attributes: seq<Attribute>, n: nat, services: seq<Service>)
    requires n < |attributes| && TreeFrom(attributes, n, services)
    requires !Opens(attributes[n]) && !Plain(attributes[n])
    ensures TreeFrom(attributes, n + 1, services)
  {
    hide Placed, Opens, Plain;
    forall i, k | 0 <= i < |services| && 0 <= k < |services[i].characteristics|
      ensures Placed(attributes, n + 1, services[i].characteristics[k], IsLast(services, i, k))
    {
      var c := services[i].characteristics[k];
      assert Placed(attributes, n, c, IsLast(services, i, k));
      if IsLast(services, i, k) { StaysOpen(attributes, n, c); } else { StaysClosed(attributes, n, c); }
    }
  }

  /** A new service closes the characteristic that was open. */
  lemma {:induction false} ServiceBegins(attributes: seq<Attribute>, n: nat, before: seq<Service>,
                                         after: seq<Service>)
    requires n < |attributes| && TreeFrom(attributes, n, before) && Opens(attributes[n])
    requires |after| == |before| + 1 && after[|before|].characteristics == []
    requires forall i :: 0 <= i < |before| ==> after[i].characteristics == before[i].characteristics
    ensures TreeFrom(attributes, n + 1, after)
  {
    hide Placed, Opens;
    forall i, k | 0 <= i < |after| && 0 <= k < |after[i].characteristics|
      ensures Placed(attributes, n + 1, after[i].characteristics[k], IsLast(after, i, k))
    {
      assert Placed(attributes, n, before[i].characteristics[k], IsLast(before, i, k));
      ClosesAll(attributes, n, before[i].characteristics[k], IsLast(before, i, k));
    }
  }

  /** So does a new characteristic. */
  lemma {:induction false} CharacteristicBegins(attributes: seq<Attribute>, n: nat, before: seq<Service>,
                                                after: seq<Service>, c: Characteristic)
    requires n < |attributes| && TreeFrom(attributes, n, before) && Opens(attributes[n])
    requires before != [] && after == WithCharacteristic(before, c) && Placed(attributes, n + 1, c, true)
    ensures TreeFrom(attributes, n + 1, after)
  {
    hide Placed, Opens;
    var last := |before| - 1;
    forall i, k | 0 <= i < |after| && 0 <= k < |after[i].characteristics|
      ensures Placed(attributes, n + 1, after[i].characteristics[k], IsLast(after, i, k))
    {
      if !IsLast(after, i, k) {
        assert after[i].characteristics[k] == before[i].characteristics[k];
        assert Placed(attributes, n, before[i].characteristics[k], IsLast(before, i, k));
        ClosesAll(attributes, n, before[i].characteristics[k], IsLast(before, i, k));
      }
    }
  }

  lemma {:induction false} DeclarationParts(a: Attribute, c: Characteristic)
    requires a.uuid == CHARACTERISTIC && (|a.value| == 5 || |a.value| == 19)
    requires c == Characteristic(a.handle, ReadLe16(a.value[1..]), a.value[0], a.value[3..], [], 0, 0)
    ensures Declares(a, c)
  {
    assert a.value == [a.value[0]] + a.value[1..3] + a.value[3..];
  }

  lemma {:induction false} AddKeepsFrom(attributes: seq<Attribute>, n: nat, before: seq<Service>)
    requires AttributesOk(attributes) && Rising(attributes) && n < |attributes| && attributes[n].handle > 0
    requires TreeFrom(attributes, n, before) && AddAttribute(before, attributes[n]).Some?
    ensures TreeFrom(attributes, n + 1, AddAttribute(before, attributes[n]).value)
  {
    var a, after := attributes[n], AddAttribute(before, attributes[n]).value;
    if a.uuid == PRIMARY {
      ServiceBegins(attributes, n, before, after);
    } else if a.uuid == CHARACTERISTIC {
      var c := Characteristic(a.handle, ReadLe16(a.value[1..]), a.value[0], a.value[3..], [], 0, 0);
      DeclarationParts(a, c);
      NewCharacteristic(attributes, n, c);
      CharacteristicBegins(attributes, n, before, after, c);
    } else if a.uuid == INCLUDE {
      IncludeStays(attributes, n, before);
    } else {
      PlainKeepsFrom(attributes, n, before);
    }
  }

  lemma {:induction false} PlainKeepsFrom(attributes: seq<Attribute>, n: nat, before: seq<Service>)
    requires AttributesOk(attributes) && Rising(attributes) && n < |attributes| && attributes[n].handle > 0
    requires TreeFrom(attributes, n, before) && AddAttribute(before, attributes[n]).Some? && Plain(attributes[n])
    ensures TreeFrom(attributes, n + 1, AddAttribute(before, attributes[n]).value)
  {
    var a, after := attributes[n], AddAttribute(before, attributes[n]).value;
    var k := |before[|before| - 1].characteristics| - 1;
    var c := before[|before| - 1].characteristics[k];
    assert Placed(attributes, n, c, IsLast(before, |before| - 1, k));
    hide TreeFrom, Placed, Restricted;
    if a.handle == c.handle {
      TakesValue(attributes, n, c);
      LastGrows(attributes, n, before, after, c.(permissions := a.permissions, keySize := a.keySize));
    } else {
      var x := Descriptor(a.handle, a.uuid, a.permissions, a.keySize);
      TakesDescriptor(attributes, n, c, x);
      LastGrows(attributes, n, before, after, c.(descriptors := c.descriptors + [x]));
    }
  }

  lemma {:induction false} TreeIsFrom(attributes: seq<Attribute>, n: nat)
    requires AttributesOk(attributes) && Rising(attributes) && n <= |attributes| && Tree(attributes[..n]).Some?
    ensures TreeFrom(attributes, n, Tree(attributes[..n]).value)
  {
    hide TreeFrom, AddAttribute;
    if n == 0 {
      NoTree(attributes);
    } else {
      assert attributes[..n][..n - 1] == attributes[..n - 1];
      TreeIsFrom(attributes, n - 1);
      assert AttributeOk(attributes[n - 1]);
      AddKeepsFrom(attributes, n - 1, Tree(attributes[..n - 1]).value);
    }
  }

  lemma {:induction false} NoTree(attributes: seq<Attribute>)
    ensures TreeFrom(attributes, 0, [])
  {
  }

  /**
    For every accepted list: a characteristic of its tree has the permissions and the key size of the attribute at its
    value handle, and none if its declaration is followed by no such attribute; each of its descriptors has those of
    the attribute it stands for.
   */
  lemma {:induction false} AccessIsThatOfTheAttributes(attributes: seq<Attribute>, i: nat, k: nat)
      returns (d: nat)
    requires AttributesOk(attributes) && Rising(attributes) && Tree(attributes).Some?
    requires i < |Tree(attributes).value| && k < |Tree(attributes).value[i].characteristics|
    ensures var c := Tree(attributes).value[i].characteristics[k];
      && d < |attributes|
      && Declares(attributes[d], c)
      && (forall v :: d < v < |attributes| && ValueAt(attributes, d, v) ==>
            c.permissions == attributes[v].permissions && c.keySize == attributes[v].keySize)
      && ((forall v :: d < v < |attributes| ==> !ValueAt(attributes, d, v)) ==> c.permissions == 0 == c.keySize)
      && (forall x :: x in c.descriptors ==>
            DescriptorFrom(attributes, |attributes|, d, x))
  {
    hide Tree, ValueAt, Within, Plain, IsDescriptor, Declares;
    assert attributes[..|attributes|] == attributes;
    TreeIsFrom(attributes, |attributes|);
    var services := Tree(attributes).value;
    var c := services[i].characteristics[k];
    assert Placed(attributes, |attributes|, c, IsLast(services, i, k));
    d :| 0 <= d < |attributes| && CharacteristicFrom(attributes, |attributes|, d, c);
  }

  // ----- Published tables -----

  /** The attribute type of a declaration. */
  predicate DeclarationType(uuid: Bytes) {
    uuid == PRIMARY || uuid == SECONDARY || uuid == CHARACTERISTIC || uuid == INCLUDE
  }

  /**
    From the firmware's list through its bytes to the tree the peer keeps: a characteristic stands for an entry and the
    one behind it, which is its value, and it has that entry's permissions and key size.
   */
  lemma {:induction false} PublishedAccess(entries: seq<Entry>, services: seq<Service>, i: nat, k: nat)
      returns (d: nat)
    requires entries != [] && EntriesOk(entries) && Accepted(entries, |entries|)
    requires AttributesOk(Attributes(entries, |entries|))
    requires Parse([2] + EncodeAll(Attributes(entries, |entries|))) == Some(services)
    requires i < |services| && k < |services[i].characteristics|
    ensures var c := services[i].characteristics[k];
      && d + 1 < |entries|
      && entries[d].definition == CharacteristicOf(c.properties, c.uuid)
      && entries[d].handle == c.declaration
      && entries[d + 1].handle == c.handle
      && entries[d + 1].uuid == c.uuid
      && (!DeclarationType(c.uuid) ==>
            c.permissions == entries[d + 1].permissions && c.keySize == entries[d + 1].keySize)
  {
    hide Tree, AddAttribute, Parse, EncodeAll, Accepted, Attributes, TableLength;
    var attributes, c := Attributes(entries, |entries|), services[i].characteristics[k];
    AcceptedAttributes(entries, |entries|);
    ParseGivesTree(attributes);
    d := AccessIsThatOfTheAttributes(attributes, i, k);
    AttributesAt(entries, |entries|, d);
    AcceptedBelow(entries, |entries|, d);
    hide Rising, AttributesOk, Within, ValueAt;
    DeclaredValue(entries, d, c);
    AttributesAt(entries, |entries|, d + 1);
    if !DeclarationType(c.uuid) { NextIsValue(attributes, d); }
  }

  /** The declaration of an accepted entry announces the entry behind it. */
  lemma {:induction false} DeclaredValue(entries: seq<Entry>, d: nat, c: Characteristic)
    requires d < |entries| && EntriesOk(entries) && ValueOf(entries, d).Some? && Declares(AttributeAt(entries, d), c)
    ensures d + 1 < |entries| && entries[d].definition == CharacteristicOf(c.properties, c.uuid)
    ensures entries[d + 1].handle == c.handle && entries[d + 1].uuid == c.uuid
    ensures c.handle == ReadLe16(AttributeAt(entries, d).value[1..])
  {
    assert EntryOk(entries[d]) && EntryOk(entries[d + 1]);
    var handle, value := entries[d + 1].handle, ValueOf(entries, d).value;
    var uuid := entries[d].definition.uuid;
    ReadWritten(handle, uuid);
    assert value == [entries[d].definition.properties] + Le16(handle) + uuid;
    assert value[1..] == Le16(handle) + uuid && value[3..] == uuid;
    assert value == [c.properties] + value[1..3] + c.uuid;
    assert value[3..] == c.uuid;
  }

  lemma {:induction false} NextIsValue(attributes: seq<Attribute>, d: nat)
    requires d + 1 < |attributes| && attributes[d].uuid == CHARACTERISTIC && !DeclarationType(attributes[d + 1].uuid)
    requires |attributes[d].value| >= 3 && attributes[d + 1].handle == ReadLe16(attributes[d].value[1..])
    ensures ValueAt(attributes, d, d + 1)
  {
  }

  // ----- Refusals -----

  /** The list without its permissions and key sizes. */
  function Cleared(attributes: seq<Attribute>): (r: seq<Attribute>)
    ensures |r| == |attributes|
  {
    seq(|attributes|, i requires 0 <= i < |attributes| => attributes[i].(permissions := 0, keySize := 0))
  }

  /** The receiver can grant the access: nothing authenticated or authorised, and no value with too long a key. */
  predicate Grantable(attributes: seq<Attribute>, i: nat)
    requires i < |attributes|
  {
    Plain(attributes[i]) ==>
      && !Restricted(attributes[i].permissions)
      && ((exists d :: 0 <= d < i && ValueAt(attributes, d, i)) ==> attributes[i].keySize <= 16)
  }

  /** Bits 3, 4, 6 and 7. */
  lemma {:induction false} RestrictedBits(permissions: Byte)
    ensures Restricted(permissions) <==>
      Bit(permissions, 3) || Bit(permissions, 4) || Bit(permissions, 6) || Bit(permissions, 7)
  {
    var p := permissions as nat;
    ThreeBitsDown(p, 0);
    ThreeBitsDown(p, 1);
    ThreeBitsDown(p, 3);
    ThreeBitsDown(p, 4);
    ThreeBitsDown(p / 8, 0);
    ThreeBitsDown(p / 8, 1);
    assert p / 8 / 8 == p / 64;
    hide Bit;
    LowBits(p / 8);
    LowBits(p / 64);
  }

  lemma {:induction false} ThreeBitsDown(v: nat, k: nat)
    ensures Bit(v, k + 3) <==> Bit(v / 8, k)
  {
    assert Bit(v, k + 3) <==> Bit(v / 2, k + 2);
    assert Bit(v / 2, k + 2) <==> Bit(v / 2 / 2, k + 1);
    assert Bit(v / 2 / 2, k + 1) <==> Bit(v / 2 / 2 / 2, k);
    assert v / 2 / 2 / 2 == v / 8;
  }

  lemma {:induction false} LowBits(v: nat)
    ensures Bit(v, 0) <==> v % 2 == 1
    ensures Bit(v, 1) <==> v / 2 % 2 == 1
  {
  }

  predicate SameCharacteristic(c: Characteristic, d: Characteristic) {
    d.declaration == c.declaration && d.handle == c.handle && d.uuid == c.uuid && |d.descriptors| == |c.descriptors|
  }

  predicate SameCharacteristics(cs: seq<Characteristic>, ds: seq<Characteristic>) {
    |ds| == |cs| && forall k :: 0 <= k < |cs| ==> SameCharacteristic(cs[k], ds[k])
  }

  /** The trees differ only in what acceptance does not depend on. */
  predicate SameShape(services: seq<Service>, others: seq<Service>) {
    && |others| == |services|
    && forall i :: 0 <= i < |services| ==> SameCharacteristics(services[i].characteristics, others[i].characteristics)
  }

  /** What the receiver refuses of one attribute on account of its access. */
  predicate Refuses(services: seq<Service>, a: Attribute) {
    && Plain(a)
    && services != [] && services[|services| - 1].characteristics != []
    && var cs := services[|services| - 1].characteristics;
       Restricted(a.permissions) || (a.handle == cs[|cs| - 1].handle && a.keySize > 16)
  }

  /** Without access, the same attributes are accepted but for those refused for their access. */
  lemma {:induction false} AddCleared(services: seq<Service>, others: seq<Service>, a: Attribute)
    requires SameShape(services, others) && a.handle > 0
    ensures var b := a.(permissions := 0, keySize := 0);
      AddAttribute(services, a).Some? <==> AddAttribute(others, b).Some? && !Refuses(services, a)
  {
    hide Restricted, UuidOk, ReadLe16;
    assert !Restricted(0) by { NothingRestricted(); }
    if services != [] {
      var cs, ds := services[|services| - 1].characteristics, others[|others| - 1].characteristics;
      assert SameCharacteristics(cs, ds);
      if cs != [] { assert SameCharacteristic(cs[|cs| - 1], ds[|ds| - 1]); }
    }
  }

  lemma {:induction false} NothingRestricted()
    ensures !Restricted(0)
  {
  }

  lemma {:induction false} ShapeKept(services: seq<Service>, others: seq<Service>, a: Attribute)
    requires SameShape(services, others) && a.handle > 0 && AddAttribute(services, a).Some?
    requires AddAttribute(others, a.(permissions := 0, keySize := 0)).Some?
    ensures SameShape(AddAttribute(services, a).value, AddAttribute(others, a.(permissions := 0, keySize := 0)).value)
  {
    hide Restricted, UuidOk, ReadLe16, SameCharacteristic;
    SameItself();
    if services != [] {
      var cs, ds := services[|services| - 1].characteristics, others[|others| - 1].characteristics;
      assert SameCharacteristics(cs, ds);
      if cs != [] && Plain(a) { LastSame(cs[|cs| - 1], ds[|ds| - 1], a); }
    }
  }

  lemma {:induction false} SameItself()
    ensures forall c :: SameCharacteristic(c, c)
  {
  }

  lemma {:induction false} LastSame(c: Characteristic, d: Characteristic, a: Attribute)
    requires SameCharacteristic(c, d)
    ensures SameCharacteristic(c.(permissions := a.permissions, keySize := a.keySize),
      d.(permissions := 0, keySize := 0))
    ensures SameCharacteristic(
      c.(descriptors := c.descriptors + [Descriptor(a.handle, a.uuid, a.permissions, a.keySize)]),
      d.(descriptors := d.descriptors + [Descriptor(a.handle, a.uuid, 0, 0)]))
  {
  }

  /** In a list whose tree is known, an attribute is the value of the open characteristic, or of none. */
  lemma {:induction false} ValueOfTheLast(attributes: seq<Attribute>, n: nat, c: Characteristic)
    requires n < |attributes| && Placed(attributes, n, c, true) && Plain(attributes[n])
    ensures (exists d :: 0 <= d < n && ValueAt(attributes, d, n)) <==> attributes[n].handle == c.handle
  {
    var d :| 0 <= d < n && CharacteristicFrom(attributes, n, d, c) && StillOpen(attributes, n, d);
    ValueIsNext(attributes, n, d, c);
    hide Plain, AccessFrom, DescriptorFrom;
    forall e | 0 <= e < n && ValueAt(attributes, e, n)
      ensures e == d
    {
      assert Within(attributes, e, n) && Within(attributes, d, n);
      assert Opens(attributes[d]) && Opens(attributes[e]);
    }
  }

  /** A plain attribute that the receiver does not refuse for its access is grantable, and the reverse. */
  lemma {:induction false} RefusesUngrantable(attributes: seq<Attribute>, n: nat, services: seq<Service>)
    requires n < |attributes| && TreeFrom(attributes, n, services)
    requires Plain(attributes[n]) ==> services != [] && services[|services| - 1].characteristics != []
    ensures Refuses(services, attributes[n]) <==> !Grantable(attributes, n)
  {
    if Plain(attributes[n]) {
      var k := |services[|services| - 1].characteristics| - 1;
      var c := services[|services| - 1].characteristics[k];
      assert Placed(attributes, n, c, IsLast(services, |services| - 1, k));
      hide Placed, Restricted, ValueAt;
      ValueOfTheLast(attributes, n, c);
    }
  }

  predicate AllGrantable(attributes: seq<Attribute>, n: nat)
    requires n <= |attributes|
  {
    forall i :: 0 <= i < n ==> Grantable(attributes, i)
  }

  /** Both trees of the first `n` attributes. */
  predicate Alike(attributes: seq<Attribute>, n: nat)
    requires AttributesOk(attributes) && AttributesOk(Cleared(attributes)) && n <= |attributes|
  {
    var tree, cleared := Tree(attributes[..n]), Tree(Cleared(attributes)[..n]);
    && (tree.Some? <==> cleared.Some? && AllGrantable(attributes, n))
    && (tree.Some? && cleared.Some? ==> SameShape(tree.value, cleared.value))
  }

  lemma {:induction false} ClearedOk(attributes: seq<Attribute>)
    requires AttributesOk(attributes)
    ensures AttributesOk(Cleared(attributes))
  {
    forall i | 0 <= i < |attributes|
      ensures AttributeOk(Cleared(attributes)[i])
    {
      assert AttributeOk(attributes[i]);
    }
  }

  lemma {:induction false} StaysAlike(attributes: seq<Attribute>, n: nat)
    requires AttributesOk(attributes) && Rising(attributes) && n < |attributes|
    requires AttributesOk(Cleared(attributes)) && Alike(attributes, n)
    ensures Alike(attributes, n + 1)
  {
    var others := Cleared(attributes);
    var tree, cleared := Tree(attributes[..n]), Tree(others[..n]);
    assert others[n] == attributes[n].(permissions := 0, keySize := 0);
    hide AddAttribute, SameShape, Grantable, Cleared, TreeFrom;
    TreeStep(attributes, n);
    TreeStep(others, n);
    if tree.Some? {
      TreeIsFrom(attributes, n);
      hide Tree, Rising, AttributesOk;
      AddAlike(attributes, n, tree.value, cleared.value);
    }
  }

  lemma {:induction false} AddAlike(attributes: seq<Attribute>, n: nat, services: seq<Service>, others: seq<Service>)
    requires n < |attributes| && attributes[n].handle > 0
    requires TreeFrom(attributes, n, services) && SameShape(services, others)
    ensures var a := attributes[n];
      var b := a.(permissions := 0, keySize := 0);
      && (AddAttribute(services, a).Some? <==> AddAttribute(others, b).Some? && Grantable(attributes, n))
      && (AddAttribute(services, a).Some? ==>
            SameShape(AddAttribute(services, a).value, AddAttribute(others, b).value))
  {
    var a := attributes[n];
    var b := a.(permissions := 0, keySize := 0);
    AddCleared(services, others, a);
    if AddAttribute(others, b).Some? {
      if Plain(b) {
        PlainNeedsCharacteristic(others, b);
        LastAlike(services, others);
      }
      hide AddAttribute, SameShape, Grantable, TreeFrom, Refuses;
      RefusesUngrantable(attributes, n, services);
      if AddAttribute(services, a).Some? { ShapeKept(services, others, a); }
    }
  }

  lemma {:induction false} TreeStep(attributes: seq<Attribute>, n: nat)
    requires AttributesOk(attributes) && n < |attributes|
    ensures attributes[n].handle > 0
    ensures Tree(attributes[..n + 1]) ==
      if Tree(attributes[..n]).None? then None else AddAttribute(Tree(attributes[..n]).value, attributes[n])
  {
    hide AddAttribute;
    assert attributes[..n + 1][..n] == attributes[..n];
    assert AttributeOk(attributes[n]);
  }

  lemma {:induction false} PlainNeedsCharacteristic(services: seq<Service>, a: Attribute)
    requires a.handle > 0 && AddAttribute(services, a).Some? && Plain(a)
    ensures services != [] && services[|services| - 1].characteristics != []
  {
  }

  lemma {:induction false} LastAlike(services: seq<Service>, others: seq<Service>)
    requires SameShape(services, others) && others != [] && others[|others| - 1].characteristics != []
    ensures services != [] && services[|services| - 1].characteristics != []
  {
  }

  /**
    A list of attributes is refused on account of its access exactly when some value or descriptor asks for
    authentication or authorisation, or some value for a key of more than 16 bytes; all else that is refused would be
    refused without any access rules.
   */
  lemma {:induction false} AccessRefusedExactly(attributes: seq<Attribute>)
    requires AttributesOk(attributes) && Rising(attributes)
    ensures AttributesOk(Cleared(attributes))
    ensures Tree(attributes).Some? <==>
      && Tree(Cleared(attributes)).Some?
      && forall i :: 0 <= i < |attributes| && Plain(attributes[i]) ==>
           && !Restricted(attributes[i].permissions)
           && ((exists d :: 0 <= d < i && ValueAt(attributes, d, i)) ==> attributes[i].keySize <= 16)
  {
    ClearedOk(attributes);
    AllAlike(attributes, |attributes|);
    hide Tree, Restricted, ValueAt, Plain, Cleared;
    assert attributes[..|attributes|] == attributes && Cleared(attributes)[..|attributes|] == Cleared(attributes);
    GrantableMeans(attributes);
    hide AllGrantable, Grantable;
    assert Tree(attributes).Some? <==> Tree(Cleared(attributes)).Some? && AllGrantable(attributes, |attributes|);
  }

  lemma {:induction false} GrantableMeans(attributes: seq<Attribute>)
    ensures AllGrantable(attributes, |attributes|) <==>
      forall i :: 0 <= i < |attributes| && Plain(attributes[i]) ==>
        && !Restricted(attributes[i].permissions)
        && ((exists d :: 0 <= d < i && ValueAt(attributes, d, i)) ==> attributes[i].keySize <= 16)
  {
    hide Plain, Restricted, ValueAt;
    if AllGrantable(attributes, |attributes|) {
      forall i | 0 <= i < |attributes| && Plain(attributes[i])
        ensures !Restricted(attributes[i].permissions)
        ensures (exists d :: 0 <= d < i && ValueAt(attributes, d, i)) ==> attributes[i].keySize <= 16
      {
        assert Grantable(attributes, i);
      }
    }
  }

  lemma {:induction false} AllAlike(attributes: seq<Attribute>, n: nat)
    requires AttributesOk(attributes) && Rising(attributes) && AttributesOk(Cleared(attributes)) && n <= |attributes|
    ensures Alike(attributes, n)
  {
    hide AddAttribute;
    if n > 0 {
      hide Alike;
      AllAlike(attributes, n - 1);
      StaysAlike(attributes, n - 1);
    }
  }
}
