/** The end of discovery: permissions are copied over from the published tree, and the trees are compared. */
module DiscoveryComplete {
  import opened Bits
  import opened GattBytes
  import opened Discovery
  import opened ConformingServer
  import opened AttributeTable
  import opened DiscoveryAgrees
  import Catalog

  // ----- The comparison -----

  /** The loops of discoveryComplete: None where the counts differ. */
  method CopyDescriptors(published: seq<Descriptor>, found: seq<Descriptor>) returns (copied: Option<seq<Descriptor>>)
    ensures copied.None? <==> |published| != |found|
    ensures copied.Some? ==> |copied.value| == |found| && forall k :: 0 <= k < |found| ==>
      copied.value[k] == found[k].(permissions := published[k].permissions, keySize := published[k].keySize)
  {
    if |published| != |found| { return None; }
    var discovered := found;
    for k := 0 to |published|
      invariant |discovered| == |found|
      invariant forall i :: 0 <= i < k ==>
        discovered[i] == found[i].(permissions := published[i].permissions, keySize := published[i].keySize)
      invariant forall i :: k <= i < |found| ==> discovered[i] == found[i]
    {
      discovered :=
        discovered[k := discovered[k].(permissions := published[k].permissions, keySize := published[k].keySize)];
    }
    return Some(discovered);
  }

  predicate DescriptorsCopied(published: seq<Descriptor>, found: seq<Descriptor>, copied: seq<Descriptor>) {
    && |published| == |found| == |copied|
    && forall k :: 0 <= k < |found| ==>
         copied[k] == found[k].(permissions := published[k].permissions, keySize := published[k].keySize)
  }

  predicate CharacteristicCopied(published: Characteristic, found: Characteristic, copied: Characteristic) {
    && copied == found.(permissions := published.permissions, keySize := published.keySize,
         descriptors := copied.descriptors)
    && DescriptorsCopied(published.descriptors, found.descriptors, copied.descriptors)
  }

  method CopyCharacteristics(published: seq<Characteristic>, found: seq<Characteristic>)
    returns (copied: Option<seq<Characteristic>>)
    ensures copied.None? <==>
      |published| != |found| || exists j :: 0 <= j < |found| && |published[j].descriptors| != |found[j].descriptors|
    ensures copied.Some? ==> |copied.value| == |found| && forall j :: 0 <= j < |found| ==>
      CharacteristicCopied(published[j], found[j], copied.value[j])
  {
    if |published| != |found| { return None; }
    var discovered := found;
    for j := 0 to |published|
      invariant |discovered| == |found|
      invariant forall i :: 0 <= i < j ==> CharacteristicCopied(published[i], found[i], discovered[i])
      invariant forall i :: j <= i < |found| ==> discovered[i] == found[i]
    {
      var descriptors := CopyDescriptors(published[j].descriptors, discovered[j].descriptors);
      if descriptors.None? { return None; }
      discovered :=
        discovered[j := discovered[j].(permissions := published[j].permissions, keySize := published[j].keySize,
                                                   descriptors := descriptors.value)];
    }
    return Some(discovered);
  }

  lemma {:induction false} CopiedDescriptorsEqual(published: seq<Descriptor>, found: seq<Descriptor>,
        copied: seq<Descriptor>)
    requires DescriptorsCopied(published, found, copied)
    ensures copied == published <==> StripDescriptors(published) == StripDescriptors(found)
  {
    if StripDescriptors(published) == StripDescriptors(found) {
      forall k | 0 <= k < |found|
        ensures copied[k] == published[k]
      {
        assert StripDescriptors(published)[k] == StripDescriptors(found)[k];
      }
    }
  }

  lemma {:induction false} CopiedCharacteristicsEqual(published: seq<Characteristic>, found: seq<Characteristic>,
        copied: seq<Characteristic>)
    requires |published| == |found| == |copied|
    requires forall j :: 0 <= j < |found| ==> CharacteristicCopied(published[j], found[j], copied[j])
    ensures copied == published <==> StripCharacteristics(published) == StripCharacteristics(found)
  {
    forall j | 0 <= j < |found|
      ensures copied[j] == published[j] <==> StripCharacteristic(published[j]) == StripCharacteristic(found[j])
    {
      assert CharacteristicCopied(published[j], found[j], copied[j]);
      CopiedDescriptorsEqual(published[j].descriptors, found[j].descriptors, copied[j].descriptors);
    }
    if StripCharacteristics(published) == StripCharacteristics(found) {
      forall j | 0 <= j < |found|
        ensures copied[j] == published[j]
      {
        assert StripCharacteristics(published)[j] == StripCharacteristics(found)[j];
      }
    }
  }

  lemma {:induction false} DifferentCounts(published: seq<Characteristic>, found: seq<Characteristic>)
    requires |published| != |found| || exists j ::
      0 <= j < |found| && |published[j].descriptors| != |found[j].descriptors|
    ensures StripCharacteristics(published) != StripCharacteristics(found)
  {
    if |published| == |found| {
      var j :| 0 <= j < |found| && |published[j].descriptors| != |found[j].descriptors|;
      assert |StripCharacteristics(published)[j].descriptors| != |StripCharacteristics(found)[j].descriptors|;
    }
  }

  /** The session is released exactly when the trees agree in all that discovery can see. */
  method CompleteDiscovery(published: seq<Service>, found: seq<Service>, catalogReady: bool, sessionRequested: bool)
    returns (released: bool)
    ensures released <==> catalogReady && sessionRequested && Stripped(published) == Stripped(found)
  {
    if |published| != |found| {
      assert |Stripped(published)| != |Stripped(found)|;
      return false;
    }
    var discovered := found;
    for i := 0 to |published|
      invariant |discovered| == |found|
      invariant forall k :: 0 <= k < i ==>
        discovered[k] == found[k].(characteristics := discovered[k].characteristics)
          && (discovered[k] == published[k] <==> StripService(published[k]) == StripService(found[k]))
      invariant forall k :: i <= k < |found| ==> discovered[k] == found[k]
    {
      var copied := CopyCharacteristics(published[i].characteristics, discovered[i].characteristics);
      if copied.None? {
        DifferentCounts(published[i].characteristics, found[i].characteristics);
        assert Stripped(published)[i] != Stripped(found)[i];
        return false;
      }
      CopiedCharacteristicsEqual(published[i].characteristics, found[i].characteristics, copied.value);
      discovered := discovered[i := discovered[i].(characteristics := copied.value)];
    }
    released := catalogReady && sessionRequested && published == discovered;
    SameStripped(published, found, discovered);
  }

  lemma {:induction false} SameStripped(published: seq<Service>, found: seq<Service>, discovered: seq<Service>)
    requires |published| == |found| == |discovered|
    requires forall k :: 0 <= k < |found| ==>
      (discovered[k] == published[k] <==> StripService(published[k]) == StripService(found[k]))
    ensures published == discovered <==> Stripped(published) == Stripped(found)
  {
    if Stripped(published) == Stripped(found) {
      forall k | 0 <= k < |found|
        ensures discovered[k] == published[k]
      {
        assert Stripped(published)[k] == Stripped(found)[k];
      }
    }
  }

  // ----- From the firmware's attribute list to the released session -----

  /** No characteristic poses as a declaration, and includes come first in their service. */
  predicate OrderedEntry(entries: seq<Catalog.Entry>, i: nat)
    requires i < |entries|
  {
    && (entries[i].definition.CharacteristicOf? ==> !IsDeclaration(entries[i].definition.uuid))
    && (entries[i].uuid == INCLUDE ==> i > 0 && (entries[i - 1].uuid == PRIMARY || entries[i - 1].uuid == INCLUDE))
  }

  predicate Ordered(entries: seq<Catalog.Entry>) {
    forall i :: 0 <= i < |entries| ==> OrderedEntry(entries, i)
  }

  lemma {:induction false} PublishedIsRegular(entries: seq<Catalog.Entry>)
    requires Catalog.EntriesOk(entries) && Catalog.Accepted(entries, |entries|) && Ordered(entries)
    ensures Regular(Catalog.Attributes(entries, |entries|))
  {
    var attributes := Catalog.Attributes(entries, |entries|);
    Catalog.AcceptedAttributes(entries, |entries|);
    forall i | 0 <= i < |entries|
      ensures RegularAt(attributes, i)
    {
      DeclarationIsRegular(entries, i);
      IncludeIsRegular(entries, i);
    }
  }

  lemma {:induction false} IncludeIsRegular(entries: seq<Catalog.Entry>, i: nat)
    requires Catalog.EntriesOk(entries) && Ordered(entries) && i < |entries|
    ensures var attributes := Catalog.Attributes(entries, |entries|);
      attributes[i].uuid == INCLUDE ==>
        i > 0 && (attributes[i - 1].uuid == PRIMARY || attributes[i - 1].uuid == INCLUDE)
  {
    hide Catalog.Attributes, Catalog.ValueOf, Catalog.EntryOk;
    assert OrderedEntry(entries, i);
    Catalog.AttributesAt(entries, |entries|, i);
    if i > 0 { Catalog.AttributesAt(entries, |entries|, i - 1); }
  }

  lemma {:induction false} DeclarationIsRegular(entries: seq<Catalog.Entry>, i: nat)
    requires Catalog.EntriesOk(entries) && Catalog.Accepted(entries, |entries|) && Ordered(entries) && i < |entries|
    ensures var attributes := Catalog.Attributes(entries, |entries|);
      attributes[i].uuid == CHARACTERISTIC ==>
        && |attributes[i].value| >= 5
        && i + 1 < |attributes|
        && !IsDeclaration(attributes[i + 1].uuid)
        && ReadLe16(attributes[i].value[1..]) == attributes[i + 1].handle
  {
    Catalog.AttributesAt(entries, |entries|, i);
    Catalog.AcceptedBelow(entries, |entries|, i);
    assert Catalog.EntryOk(entries[i]) && OrderedEntry(entries, i);
    if entries[i].uuid == CHARACTERISTIC {
      DeclaredValue(entries, i);
      Catalog.AttributesAt(entries, |entries|, i + 1);
    }
  }

  lemma {:induction false} DeclaredValue(entries: seq<Catalog.Entry>, i: nat)
    requires Catalog.EntriesOk(entries) && i < |entries| && entries[i].uuid == CHARACTERISTIC
    requires Catalog.ValueOf(entries, i).Some?
    ensures entries[i].definition.CharacteristicOf?
    ensures i + 1 < |entries|
    ensures entries[i + 1].uuid == entries[i].definition.uuid
    ensures |Catalog.ValueOf(entries, i).value| >= 5
    ensures ReadLe16(Catalog.ValueOf(entries, i).value[1..]) == entries[i + 1].handle
  {
    assert Catalog.EntryOk(entries[i]);
    assert entries[i].definition.CharacteristicOf?;
    assert i + 1 < |entries| && Catalog.EntryOk(entries[i + 1]);
    var value, rest := Catalog.ValueOf(entries, i).value, entries[i].definition.uuid;
    assert value[1..] == Le16(entries[i + 1].handle) + rest;
    ReadWritten(entries[i + 1].handle, rest);
  }

  /** A server that reports one item a response; every sorted table has a truthful server. */
  function OneByOne(lists: Lists, q: Query): Response {
    var all := Visible(ListOf(lists, q.kind), q.start, q.limit);
    if all == [] || !ItemOk(q.kind, all[0]) then NotFound
    else Value([Format(q.kind, |all[0].uuid|)] + Encode(q.kind, all[0]))
  }

  lemma {:induction false} TruthfulServerExists(lists: Lists) returns (server: Server)
    requires forall kind :: Sorted(kind, ListOf(lists, kind))
    ensures Conforms(server, lists)
  {
    server := (n: nat, q: Query) => OneByOne(lists, q);
    forall n: nat, q: Query
      ensures Answers(ListOf(lists, q.kind), q, server(n, q))
    {
      OneByOneAnswers(lists, q);
    }
  }

  lemma {:induction false} OneByOneAnswers(lists: Lists, q: Query)
    requires Sorted(q.kind, ListOf(lists, q.kind))
    ensures Answers(ListOf(lists, q.kind), q, OneByOne(lists, q))
  {
    var items := ListOf(lists, q.kind);
    VisibleSorted(q.kind, items, q.start, q.limit);
    var all := Visible(items, q.start, q.limit);
    if all != [] {
      assert ItemOk(q.kind, all[0]);
      assert all[..1] == [all[0]] && all[..1][1..] == [];
      assert EncodeList(q.kind, all[..1]) == Encode(q.kind, all[0]) + [];
      assert Encode(q.kind, all[0]) + [] == Encode(q.kind, all[0]);
      assert Uniform(all[..1]);
    }
  }

  /**
    The firmware's attribute list goes two ways: serialised, cut into chunks, reassembled and parsed; and read over ATT.
    For every list the publisher and the parser accept, the first way gives the tree of its attributes, the second
    always succeeds, and the comparison that releases the session succeeds if and only if no handle is skipped before
    a service.
   */
  lemma {:induction false} PublishedIsDiscovered(entries: seq<Catalog.Entry>, receiver: Catalog.Assembly,
        server: Server)
    requires entries != [] && Catalog.EntriesOk(entries) && Catalog.Accepted(entries, |entries|) && Ordered(entries)
    requires Catalog.AttributesOk(Catalog.Attributes(entries, |entries|))
    requires Catalog.Tree(Catalog.Attributes(entries, |entries|)).Some?
    requires Conforms(server, ListsOf(Catalog.Attributes(entries, |entries|), |entries|))
    ensures var attributes := Catalog.Attributes(entries, |entries|);
      var database := [2] + Catalog.EncodeAll(attributes);
      && Catalog.ReceiveAll(receiver, Catalog.ChunksFrom(database, 0)) == Some(Catalog.Assembly(database, false, true))
      && Catalog.Parse(database).Some?
      && Discover(server).Some?
      && WellFormed(Discover(server).value)
      && (Stripped(Catalog.Parse(database).value) == FoundTree(Discover(server).value) <==>
           NoGaps(attributes, |entries|))
  {
    hide *;
    PublishedIsRegular(entries);
    Catalog.PublicationIsRecovered(entries, receiver);
    DiscoveryReproducesCatalog(Catalog.Attributes(entries, |entries|), server);
  }

  /** Two services with a handle between them: discovery ends well, but the session is refused. */
  lemma {:induction false} GapIsRefused() returns (attributes: seq<Attribute>, server: Server)
    ensures Regular(attributes)
    ensures attributes != []
    ensures Catalog.Tree(attributes).Some?
    ensures Conforms(server, ListsOf(attributes, |attributes|))
    ensures Discover(server).Some? && WellFormed(Discover(server).value)
    ensures Stripped(Catalog.Tree(attributes).value) != FoundTree(Discover(server).value)
  {
    var a, b := Catalog.Attribute(1, 0, 0, PRIMARY, [0x0D, 0x18]), Catalog.Attribute(3, 0, 0, PRIMARY, [0x0F, 0x18]);
    attributes := [a, b];
    assert attributes[..1] == [a] && [a][..0] == [];
    assert Catalog.Tree([]) == Some([]);
    assert Catalog.Tree([a]).Some? && |Catalog.Tree([a]).value| == 1;
    assert !NoGaps(attributes, 2) by { assert attributes[1].handle != attributes[0].handle + 1; }
    assert Regular(attributes);
    TableListsSorted(attributes);
    server := TruthfulServerExists(ListsOf(attributes, 2));
    DiscoveryReproducesCatalog(attributes, server);
  }
}
