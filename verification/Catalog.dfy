/**
  Publication of the GATT table: the controller serialises the attribute list and sends it in chunks;
  the peer reassembles the bytes and parses them into a service tree.
 */
module Catalog {
  import opened Bits
  import opened GattBytes

  // ----- The publisher -----

  /** What a list entry declares: a service, a characteristic whose value is the next entry, or nothing. */
  datatype Definition = ServiceOf(uuid: Bytes) | CharacteristicOf(properties: Byte, uuid: Bytes) | Nothing

  datatype Entry = Entry(handle: nat, permissions: Byte, keySize: Byte, uuid: Bytes, definition: Definition)

  predicate EntryOk(e: Entry) {
    && e.handle < 0x10000 && UuidOk(e.uuid)
    && match e.definition
       case ServiceOf(uuid) => (e.uuid == PRIMARY || e.uuid == SECONDARY) && UuidOk(uuid)
       case CharacteristicOf(_, uuid) => e.uuid == CHARACTERISTIC && UuidOk(uuid)
       case Nothing => e.uuid != PRIMARY && e.uuid != SECONDARY && e.uuid != CHARACTERISTIC
  }

  predicate EntriesOk(entries: seq<Entry>) {
    forall i :: 0 <= i < |entries| ==> EntryOk(entries[i])
  }

  /** An attribute as it is published. */
  datatype Attribute = Attribute(handle: nat, permissions: Byte, keySize: Byte, uuid: Bytes, value: Bytes)

  predicate AttributeOk(a: Attribute) {
    0 < a.handle < 0x10000 && UuidOk(a.uuid) && |a.value| <= 19
  }

  predicate AttributesOk(attributes: seq<Attribute>) {
    forall i :: 0 <= i < |attributes| ==> AttributeOk(attributes[i])
  }

  function Encode(a: Attribute): Bytes
    requires a.handle < 0x10000 && |a.uuid| < 256 && |a.value| < 256
  {
    Le16(a.handle) + [a.permissions, a.keySize, |a.uuid|] + a.uuid + [|a.value|] + a.value
  }

  function EncodeAll(attributes: seq<Attribute>): Bytes
    requires AttributesOk(attributes)
  {
    if attributes == [] then [] else EncodeAll(attributes[..|attributes| - 1]) + Encode(attributes[|attributes| - 1])
  }

  /** The published value of entry `i`: a declaration's contents, with the next entry's handle for a characteristic. */
  function ValueOf(entries: seq<Entry>, i: nat): Option<Bytes>
    requires i < |entries| && EntriesOk(entries)
  {
    match entries[i].definition
    case ServiceOf(uuid) => Some(uuid)
    case CharacteristicOf(properties, uuid) =>
      if i + 1 == |entries| || entries[i + 1].uuid != uuid then None
      else Some([properties] + Le16(entries[i + 1].handle) + uuid)
    case Nothing => Some([])
  }

  /** Entry `i` as it is published. */
  function AttributeAt(entries: seq<Entry>, i: nat): Attribute
    requires i < |entries| && EntriesOk(entries)
  {
    var e, value := entries[i], ValueOf(entries, i);
    Attribute(e.handle, e.permissions, e.keySize, e.uuid, if value.Some? then value.value else [])
  }

  /** The first `n` attributes of the list. */
  function Attributes(entries: seq<Entry>, n: nat): (r: seq<Attribute>)
    requires n <= |entries| && EntriesOk(entries)
    ensures |r| == n
  {
    if n == 0 then [] else Attributes(entries, n - 1) + [AttributeAt(entries, n - 1)]
  }

  predicate EntryAccepted(entries: seq<Entry>, i: nat)
    requires i < |entries| && EntriesOk(entries)
  {
    && entries[i].handle > (if i == 0 then 0 else entries[i - 1].handle)
    && ValueOf(entries, i).Some?
  }

  /** The publisher takes the first `n` entries: handles rise, values exist, and the table was not yet too long. */
  predicate Accepted(entries: seq<Entry>, n: nat)
    requires n <= |entries| && EntriesOk(entries)
  {
    n == 0 || (Accepted(entries, n - 1) && EntryAccepted(entries, n - 1) && TableLength(entries, n - 1) <= 32000)
  }

  function TableLength(entries: seq<Entry>, n: nat): nat
    requires n <= |entries| && EntriesOk(entries)
  {
    if n == 0 then 1
    else TableLength(entries, n - 1) + 6 + |AttributeAt(entries, n - 1).uuid| + |AttributeAt(entries, n - 1).value|
  }

  lemma {:induction false} AttributesAt(entries: seq<Entry>, n: nat, i: nat)
    requires i < n <= |entries| && EntriesOk(entries)
    ensures Attributes(entries, n)[i] == AttributeAt(entries, i)
  {
    if i < n - 1 { AttributesAt(entries, n - 1, i); }
  }

  lemma {:induction false} AcceptedBelow(entries: seq<Entry>, n: nat, i: nat)
    requires i < n <= |entries| && EntriesOk(entries) && Accepted(entries, n)
    ensures EntryAccepted(entries, i) && entries[i].handle > 0
    decreases n - i
  {
    if i < n - 1 { AcceptedBelow(entries, n - 1, i); }
  }

  lemma {:induction false} HandlesRise(entries: seq<Entry>, n: nat, i: nat, j: nat)
    requires i < j < n <= |entries| && EntriesOk(entries) && Accepted(entries, n)
    ensures entries[i].handle < entries[j].handle
    decreases j
  {
    AcceptedBelow(entries, n, j);
    if i < j - 1 { HandlesRise(entries, n, i, j - 1); }
  }

  lemma {:induction false} AcceptedAttributes(entries: seq<Entry>, n: nat)
    requires n <= |entries| && EntriesOk(entries) && Accepted(entries, n)
    ensures AttributesOk(Attributes(entries, n))
    ensures Rising(Attributes(entries, n))
  {
    var attributes := Attributes(entries, n);
    forall i | 0 <= i < n
      ensures AttributeOk(attributes[i])
    {
      AttributesAt(entries, n, i);
      AcceptedBelow(entries, n, i);
    }
    forall i, j | 0 <= i < j < n
      ensures attributes[i].handle < attributes[j].handle
    {
      AttributesAt(entries, n, i);
      AttributesAt(entries, n, j);
      HandlesRise(entries, n, i, j);
    }
  }

  predicate Rising(attributes: seq<Attribute>) {
    forall i, j :: 0 <= i < j < |attributes| ==> attributes[i].handle < attributes[j].handle
  }

  /** `bytes` is what the first `n` entries serialise to. */
  predicate Published(entries: seq<Entry>, n: nat, bytes: Bytes)
    requires n <= |entries| && EntriesOk(entries)
  {
    && Accepted(entries, n)
    && AttributesOk(Attributes(entries, n))
    && bytes == [2] + EncodeAll(Attributes(entries, n))
    && |bytes| == TableLength(entries, n)
  }

  /** The serialised table, format version 2; None when the list is refused. */
  method PublishDatabase(entries: seq<Entry>) returns (database: Option<Bytes>)
    requires EntriesOk(entries)
    ensures database.Some? <==> entries != [] && Accepted(entries, |entries|)
    ensures database.Some? ==>
      && AttributesOk(Attributes(entries, |entries|))
      && database.value == [2] + EncodeAll(Attributes(entries, |entries|))
  {
    hide *;
    if entries == [] { return None; }
    NothingPublished(entries);
    var bytes: Bytes := [2];
    var previousHandle := 0;
    for i := 0 to |entries|
      invariant Published(entries, i, bytes)
      invariant previousHandle == if i == 0 then 0 else entries[i - 1].handle
    {
      var e := entries[i];
      var value := PublishedValue(entries, i);
      OneEntryOk(entries, i);
      AcceptStep(entries, i, bytes);
      if e.handle <= previousHandle || |bytes| > 32000 || value.None? {
        RefusalStays(entries, i + 1, |entries|);
        return None;
      }
      previousHandle := e.handle;
      EncodeStep(entries, i, bytes);
      bytes := bytes + Encode(Attribute(e.handle, e.permissions, e.keySize, e.uuid, value.value));
    }
    PublishedIs(entries, bytes);
    database := Some(bytes);
  }

  lemma {:induction false} PublishedIs(entries: seq<Entry>, bytes: Bytes)
    requires EntriesOk(entries) && Published(entries, |entries|, bytes)
    ensures Accepted(entries, |entries|)
    ensures AttributesOk(Attributes(entries, |entries|))
    ensures bytes == [2] + EncodeAll(Attributes(entries, |entries|))
  {
    hide Accepted, Attributes, EncodeAll, AttributesOk, TableLength;
  }

  lemma {:induction false} OneEntryOk(entries: seq<Entry>, i: nat)
    requires i < |entries| && EntriesOk(entries)
    ensures EntryOk(entries[i])
  {
  }

  lemma {:induction false} Associative(a: Bytes, b: Bytes, c: Bytes)
    ensures a + b + c == a + (b + c)
  {
  }

  lemma {:induction false} NothingPublished(entries: seq<Entry>)
    requires EntriesOk(entries)
    ensures Published(entries, 0, [2])
  {
    assert [2] + [] == [2];
  }

  lemma {:induction false} AcceptStep(entries: seq<Entry>, i: nat, bytes: Bytes)
    requires i < |entries| && EntriesOk(entries) && Published(entries, i, bytes)
    ensures Accepted(entries, i + 1) <==>
      && entries[i].handle > (if i == 0 then 0 else entries[i - 1].handle)
      && ValueOf(entries, i).Some?
      && |bytes| <= 32000
    ensures ValueOf(entries, i).Some? ==>
      var e := entries[i];
      AttributeAt(entries, i) == Attribute(e.handle, e.permissions, e.keySize, e.uuid, ValueOf(entries, i).value)
  {
    hide EncodeAll, Attributes, AttributesOk, ValueOf, TableLength;
  }

  method PublishedValue(entries: seq<Entry>, i: nat) returns (value: Option<Bytes>)
    requires i < |entries| && EntriesOk(entries)
    ensures value == ValueOf(entries, i)
  {
    assert EntryOk(entries[i]);
    match entries[i].definition {
      case ServiceOf(uuid) =>
        return Some(uuid);
      case CharacteristicOf(properties, uuid) =>
        if i + 1 == |entries| || entries[i + 1].uuid != uuid { return None; }
        assert EntryOk(entries[i + 1]);
        return Some([properties] + Le16(entries[i + 1].handle) + uuid);
      case Nothing =>
        return Some([]);
    }
  }

  lemma {:induction false} EncodeStep(entries: seq<Entry>, i: nat, bytes: Bytes)
    requires i < |entries| && EntriesOk(entries) && Accepted(entries, i + 1) && Published(entries, i, bytes)
    ensures AttributeOk(AttributeAt(entries, i))
    ensures var a := AttributeAt(entries, i); a.handle < 0x10000 && |a.uuid| < 256 && |a.value| < 256
    ensures Published(entries, i + 1, bytes + Encode(AttributeAt(entries, i)))
  {
    AcceptedAttributes(entries, i + 1);
    AttributesStep(entries, i);
    hide Accepted, Attributes, Encode, AttributeAt;
    var attributes := Attributes(entries, i + 1);
    assert AttributeOk(attributes[i]);
    assert EncodeAll(attributes) == EncodeAll(attributes[..i]) + Encode(attributes[i]);
    Associative([2], EncodeAll(attributes[..i]), Encode(attributes[i]));
    EncodedLength(attributes[i]);
    hide EncodeAll, AttributeOk, AttributesOk;
    assert TableLength(entries, i + 1) == TableLength(entries, i) + |Encode(attributes[i])|;
  }

  lemma {:induction false} AttributesStep(entries: seq<Entry>, i: nat)
    requires i < |entries| && EntriesOk(entries)
    ensures Attributes(entries, i + 1)[..i] == Attributes(entries, i)
    ensures Attributes(entries, i + 1)[i] == AttributeAt(entries, i)
  {
    hide AttributeAt;
  }

  lemma {:induction false} EncodedLength(a: Attribute)
    requires a.handle < 0x10000 && |a.uuid| < 256 && |a.value| < 256
    ensures |Encode(a)| == 6 + |a.uuid| + |a.value|
  {
  }

  lemma {:induction false} RefusalStays(entries: seq<Entry>, k: nat, n: nat)
    requires k <= n <= |entries| && EntriesOk(entries) && !Accepted(entries, k)
    ensures !Accepted(entries, n)
  {
    if k < n { RefusalStays(entries, k, n - 1); }
  }

  // ----- Chunks -----

  const CHUNK: nat := 1000

  function ChunkFlags(offset: nat, size: nat, total: nat): Byte {
    (if offset == 0 then 1 else 0) + (if offset + size == total then 2 else 0)
  }

  /** The packets for `database[offset..]`. */
  function ChunksFrom(database: Bytes, offset: nat): seq<Bytes>
    requires offset <= |database|
    decreases |database| - offset
  {
    if offset == |database| then []
    else
      var size := if |database| - offset < CHUNK then |database| - offset else CHUNK;
      [[ChunkFlags(offset, size, |database|)] + database[offset..offset + size]] + ChunksFrom(database, offset + size)
  }

  /** The sending loop. */
  method SplitIntoChunks(database: Bytes) returns (packets: seq<Bytes>)
    ensures packets == ChunksFrom(database, 0)
  {
    packets := [];
    var offset := 0;
    while offset < |database|
      invariant offset <= |database|
      invariant packets + ChunksFrom(database, offset) == ChunksFrom(database, 0)
    {
      var size := if |database| - offset < CHUNK then |database| - offset else CHUNK;
      var packet := [ChunkFlags(offset, size, |database|)] + database[offset..offset + size];
      assert ChunksFrom(database, offset) == [packet] + ChunksFrom(database, offset + size);
      assert packets + ([packet] + ChunksFrom(database, offset + size)) ==
        packets + [packet] + ChunksFrom(database, offset + size);
      packets := packets + [packet];
      offset := offset + size;
    }
    assert packets + [] == packets;
  }

  /** Reassembly at the receiver: None after a packet it refuses. */
  datatype Assembly = Assembly(buffer: Bytes, receiving: bool, complete: bool)

  const MAX_CATALOG: nat := 32768

  function Receive(s: Assembly, payload: Bytes): Option<Assembly> {
    if payload == [] || payload[0] >= 4 then None
    else
      var first, last := payload[0] % 2 == 1, payload[0] >= 2;
      var buffer := if first then [] else s.buffer;
      if !(first || s.receiving) || |buffer| + |payload| > MAX_CATALOG then None
      else Some(Assembly(buffer + payload[1..], !last, last))
  }

  /** The receiver's buffer, filled in place. */
  class CatalogReceiver {
    var buffer: Bytes
    var receiving: bool
    var complete: bool

    function View(): Assembly
      reads this
    {
      Assembly(buffer, receiving, complete)
    }

    constructor ()
      ensures View() == Assembly([], false, false)
    {
      buffer, receiving, complete := [], false, false;
    }

    /** One metadata packet; a packet that is refused makes the polling loop drop the catalog. */
    method TakeChunk(payload: Bytes) returns (accepted: bool)
      modifies this
      ensures accepted <==> Receive(old(View()), payload).Some?
      ensures accepted ==> Some(View()) == Receive(old(View()), payload)
    {
      if payload == [] || payload[0] >= 4 { return false; }
      var flags := payload[0];
      if flags % 2 == 1 {
        buffer := [];
        receiving := true;
      }
      if !receiving || |buffer| + |payload| > MAX_CATALOG { return false; }
      buffer := buffer + payload[1..];
      complete := flags >= 2;
      if !complete { return true; }
      receiving := false;
      return true;
    }
  }

  function ReceiveAll(s: Assembly, packets: seq<Bytes>): Option<Assembly>
    decreases |packets|
  {
    if packets == [] then Some(s)
    else match Receive(s, packets[0])
      case None => None
      case Some(t) => ReceiveAll(t, packets[1..])
  }

  lemma {:induction false} ChunksContinue(database: Bytes, offset: nat, s: Assembly)
    requires offset < |database| <= 32041
    requires offset == 0 || (s.receiving && s.buffer == database[..offset])
    ensures ReceiveAll(s, ChunksFrom(database, offset)) == Some(Assembly(database, false, true))
    decreases |database| - offset
  {
    var size := if |database| - offset < CHUNK then |database| - offset else CHUNK;
    var packet := [ChunkFlags(offset, size, |database|)] + database[offset..offset + size];
    var buffer := if offset == 0 then [] else s.buffer;
    assert packet[1..] == database[offset..offset + size];
    assert buffer + packet[1..] == database[..offset + size];
    var t := Receive(s, packet).value;
    var packets := ChunksFrom(database, offset);
    assert packets[0] == packet && packets[1..] == ChunksFrom(database, offset + size);
    if offset + size == |database| {
      assert database[..|database|] == database;
      assert ReceiveAll(t, []) == Some(t);
    } else {
      ChunksContinue(database, offset + size, t);
    }
  }

  /** From any receiver state, the chunks of a published table reassemble to exactly its bytes. */
  lemma {:induction false} ChunksReassemble(database: Bytes, s: Assembly)
    requires 0 < |database| <= 32041
    ensures ReceiveAll(s, ChunksFrom(database, 0)) == Some(Assembly(database, false, true))
  {
    ChunksContinue(database, 0, s);
  }

  // ----- The parser -----

  /** The first attribute of the bytes, and the bytes after it. */
  function DecodeHead(remaining: Bytes): Option<(Attribute, Bytes)> {
    if |remaining| < 6 then None
    else
      var uuidSize := remaining[4] as nat;
      if |remaining| < 6 + uuidSize || !(uuidSize == 2 || uuidSize == 16) then None
      else
        var valueSize := remaining[5 + uuidSize] as nat;
        if |remaining| < 6 + uuidSize + valueSize then None
        else
          Some((Attribute(ReadLe16(remaining), remaining[2], remaining[3], remaining[5..5 + uuidSize],
                          remaining[6 + uuidSize..6 + uuidSize + valueSize]),
                remaining[6 + uuidSize + valueSize..]))
  }

  lemma {:induction false} DecodeEncoded(a: Attribute, rest: Bytes)
    requires AttributeOk(a)
    ensures DecodeHead(Encode(a) + rest) == Some((a, rest))
  {
    var bytes := Encode(a) + rest;
    var u, v := |a.uuid|, |a.value|;
    assert bytes[..2] == Le16(a.handle) && bytes[2] == a.permissions && bytes[3] == a.keySize && bytes[4] == u;
    ReadWritten(a.handle, bytes[2..]);
    assert bytes == Le16(a.handle) + bytes[2..];
    assert bytes[5..5 + u] == a.uuid;
    assert bytes[5 + u] == v;
    assert bytes[6 + u..6 + u + v] == a.value;
    assert bytes[6 + u + v..] == rest;
  }

  /** Access that needs authentication or authorisation, which the receiver cannot grant. */
  predicate Restricted(permissions: Byte) {
    permissions / 8 % 4 != 0 || permissions / 64 != 0
  }

  function WithLastCharacteristic(services: seq<Service>, c: Characteristic): seq<Service>
    requires services != [] && services[|services| - 1].characteristics != []
  {
    var s := services[|services| - 1];
    services[..|services| - 1] + [s.(characteristics := s.characteristics[..|s.characteristics| - 1] + [c])]
  }

  function WithService(services: seq<Service>, handle: nat, uuid: Bytes): seq<Service>
    requires handle > 0
  {
    (if services == [] then [] else
       services[..|services| - 1] + [services[|services| - 1].(end := handle - 1)])
         + [Service(handle, 0xFFFF, uuid, [])]
  }

  function WithCharacteristic(services: seq<Service>, c: Characteristic): seq<Service>
    requires services != []
  {
    var s := services[|services| - 1];
    services[..|services| - 1] + [s.(characteristics := s.characteristics + [c])]
  }

  /** What one attribute adds to the tree; None where the receiver refuses the table. */
  function AddAttribute(services: seq<Service>, a: Attribute): (r: Option<seq<Service>>)
    requires a.handle > 0
    ensures r.Some? ==> r.value != []
  {
    if a.uuid == PRIMARY then
      if |services| >= MAX_SERVICES || !UuidOk(a.value) then None else Some(WithService(services, a.handle, a.value))
    else if services == [] || a.uuid == SECONDARY then None
    else
      var characteristics := services[|services| - 1].characteristics;
      if a.uuid == CHARACTERISTIC then
        if |characteristics| >= MAX_CHARACTERISTICS || !(|a.value| == 5 || |a.value| == 19)
          || ReadLe16(a.value[1..]) <= a.handle then None
        else Some(WithCharacteristic(services,
          Characteristic(a.handle, ReadLe16(a.value[1..]), a.value[0], a.value[3..], [], 0, 0)))
      else if a.uuid == INCLUDE then Some(services)
      else if characteristics == [] then None
      else
        var c := characteristics[|characteristics| - 1];
        if a.handle == c.handle then
          if a.uuid != c.uuid || Restricted(a.permissions) || a.keySize > 16 then None
          else Some(WithLastCharacteristic(services, c.(permissions := a.permissions, keySize := a.keySize)))
        else if a.handle < c.handle || |c.descriptors| >= MAX_DESCRIPTORS || Restricted(a.permissions) then None
        else
          Some(WithLastCharacteristic(services,
            c.(descriptors := c.descriptors + [Descriptor(a.handle, a.uuid, a.permissions, a.keySize)])))
  }

  function Tree(attributes: seq<Attribute>): Option<seq<Service>>
    requires AttributesOk(attributes)
  {
    if attributes == [] then Some([])
    else match Tree(attributes[..|attributes| - 1])
      case None => None
      case Some(services) => AddAttribute(services, attributes[|attributes| - 1])
  }

  /** Parsing the bytes after the version: each attribute must have a larger handle than the one before. */
  function ParseFrom(remaining: Bytes, previous: nat, tree: seq<Service>): Option<seq<Service>>
    decreases |remaining|
  {
    if remaining == [] then Some(tree)
    else match DecodeHead(remaining)
      case None => None
      case Some((a, rest)) =>
        if a.handle <= previous then None
        else match AddAttribute(tree, a)
          case None => None
          case Some(next) => ParseFrom(rest, a.handle, next)
  }

  /** The receiver's verdict on a reassembled table. */
  function Parse(buffer: Bytes): Option<seq<Service>> {
    if buffer == [] || buffer[0] != 2 || ParseFrom(buffer[1..], 0, []) == Some([]) then None
    else ParseFrom(buffer[1..], 0, [])
  }

  /** The loop over the remaining bytes. */
  method ParseCatalog(buffer: Bytes) returns (services: Option<seq<Service>>)
    ensures services == Parse(buffer)
  {
    if buffer == [] || buffer[0] != 2 { return None; }
    var tree: seq<Service> := [];
    var remaining := buffer[1..];
    var previous := 0;
    while remaining != []
      invariant ParseFrom(remaining, previous, tree) == ParseFrom(buffer[1..], 0, [])
      decreases |remaining|
    {
      var head := DecodeHead(remaining);
      if head.None? { return None; }
      var (a, rest) := head.value;
      if a.handle <= previous { return None; }
      remaining := rest;
      previous := a.handle;
      var next := AddAttribute(tree, a);
      if next.None? { return None; }
      tree := next.value;
    }
    if tree == [] { return None; }
    return Some(tree);
  }

  // ----- Publication and parsing undo each other -----

  function EncodeFrom(attributes: seq<Attribute>, n: nat): Bytes
    requires n <= |attributes| && AttributesOk(attributes)
    decreases |attributes| - n
  {
    if n == |attributes| then [] else Encode(attributes[n]) + EncodeFrom(attributes, n + 1)
  }

  lemma {:induction false} EncodeSplits(attributes: seq<Attribute>, n: nat)
    requires n <= |attributes| && AttributesOk(attributes)
    ensures EncodeAll(attributes) == EncodeAll(attributes[..n]) + EncodeFrom(attributes, n)
    decreases |attributes| - n
  {
    if n == |attributes| {
      assert attributes[..n] == attributes;
      assert EncodeAll(attributes) + [] == EncodeAll(attributes);
    } else {
      hide Encode;
      EncodeSplits(attributes, n + 1);
      assert attributes[..n + 1][..n] == attributes[..n];
      assert AttributeOk(attributes[n]);
      Associative(EncodeAll(attributes[..n]), Encode(attributes[n]), EncodeFrom(attributes, n + 1));
    }
  }

  /** All attributes of the bytes. */
  function DecodeAll(remaining: Bytes): Option<seq<Attribute>>
    decreases |remaining|
  {
    if remaining == [] then Some([])
    else match DecodeHead(remaining)
      case None => None
      case Some((a, rest)) =>
        match DecodeAll(rest)
        case None => None
        case Some(more) => Some([a] + more)
  }

  lemma {:induction false} DecodeStep(remaining: Bytes, a: Attribute, rest: Bytes)
    requires DecodeHead(remaining) == Some((a, rest)) && DecodeAll(rest).Some?
    ensures DecodeAll(remaining) == Some([a] + DecodeAll(rest).value)
  {
    hide DecodeHead;
    assert remaining != [] by { HeadNeedsBytes(); }
  }

  lemma {:induction false} HeadNeedsBytes()
    ensures DecodeHead([]) == None
  {
  }

  lemma {:induction false} DecodeNothing()
    ensures DecodeAll([]) == Some([])
  {
  }

  lemma {:induction false} TailDecodes(attributes: seq<Attribute>, n: nat)
    requires n <= |attributes| && AttributesOk(attributes)
    ensures DecodeAll(EncodeFrom(attributes, n)) == Some(attributes[n..])
    decreases |attributes| - n
  {
    hide DecodeAll, Encode;
    if n == |attributes| {
      DecodeNothing();
    } else {
      var rest := EncodeFrom(attributes, n + 1);
      assert AttributeOk(attributes[n]);
      DecodeEncoded(attributes[n], rest);
      TailDecodes(attributes, n + 1);
      DecodeStep(Encode(attributes[n]) + rest, attributes[n], rest);
      assert attributes[n..] == [attributes[n]] + attributes[n + 1..];
    }
  }

  /** Decoding a whole serialised table gives back the attribute list itself. */
  lemma {:induction false} TableDecodes(attributes: seq<Attribute>)
    requires AttributesOk(attributes)
    ensures DecodeAll(EncodeAll(attributes)) == Some(attributes)
  {
    hide *;
    EncodeSplits(attributes, 0);
    NothingEncoded(attributes);
    TailDecodes(attributes, 0);
    assert attributes[0..] == attributes;
  }

  lemma {:induction false} NothingEncoded(attributes: seq<Attribute>)
    requires AttributesOk(attributes)
    ensures AttributesOk(attributes[..0])
    ensures EncodeAll(attributes[..0]) + EncodeFrom(attributes, 0) == EncodeFrom(attributes, 0)
  {
    assert EncodeAll(attributes[..0]) == [];
    assert [] + EncodeFrom(attributes, 0) == EncodeFrom(attributes, 0);
  }

  lemma {:induction false} TreeRefusalStays(attributes: seq<Attribute>, k: nat, n: nat)
    requires k <= n <= |attributes| && AttributesOk(attributes) && Tree(attributes[..k]) == None
    ensures Tree(attributes[..n]) == None
  {
    if k < n {
      TreeRefusalStays(attributes, k, n - 1);
      assert attributes[..n][..n - 1] == attributes[..n - 1];
    }
  }

  lemma {:induction false} ParseFollowsTree(attributes: seq<Attribute>, n: nat, tree: seq<Service>)
    requires n <= |attributes| && AttributesOk(attributes) && Tree(attributes[..n]) == Some(tree)
    requires Rising(attributes)
    ensures ParseFrom(EncodeFrom(attributes, n), if n == 0 then 0 else attributes[n - 1].handle, tree) ==
      Tree(attributes)
    decreases |attributes| - n
  {
    hide *;
    if n == |attributes| {
      assert attributes[..n] == attributes;
      ParseNothing(attributes, n, tree);
    } else {
      var a, rest := attributes[n], EncodeFrom(attributes, n + 1);
      AttributeHere(attributes, n);
      EncodeFromStep(attributes, n);
      DecodeEncoded(a, rest);
      TreeNext(attributes, n);
      ParseStep(Encode(a) + rest, if n == 0 then 0 else attributes[n - 1].handle, tree, a, rest);
      match AddAttribute(tree, a) {
        case None =>
          TreeRefusalStays(attributes, n + 1, |attributes|);
          assert attributes[..|attributes|] == attributes;
        case Some(next) =>
          ParseFollowsTree(attributes, n + 1, next);
      }
    }
  }

  lemma {:induction false} ParseNothing(attributes: seq<Attribute>, previous: nat, tree: seq<Service>)
    requires AttributesOk(attributes)
    ensures EncodeFrom(attributes, |attributes|) == []
    ensures forall handle: nat :: ParseFrom([], handle, tree) == Some(tree)
  {
  }

  lemma {:induction false} AttributeHere(attributes: seq<Attribute>, n: nat)
    requires n < |attributes| && AttributesOk(attributes) && Rising(attributes)
    ensures AttributeOk(attributes[n])
    ensures 0 < attributes[n].handle < 0x10000 && |attributes[n].uuid| < 256 && |attributes[n].value| < 256
    ensures n > 0 ==> attributes[n - 1].handle < attributes[n].handle
    ensures AttributesOk(attributes[..n]) && AttributesOk(attributes[..n + 1])
  {
  }

  lemma {:induction false} EncodeFromStep(attributes: seq<Attribute>, n: nat)
    requires n < |attributes| && AttributesOk(attributes) && AttributeOk(attributes[n])
    ensures EncodeFrom(attributes, n) == Encode(attributes[n]) + EncodeFrom(attributes, n + 1)
  {
    hide Encode;
  }

  lemma {:induction false} TreeNext(attributes: seq<Attribute>, n: nat)
    requires n < |attributes| && AttributesOk(attributes) && Tree(attributes[..n]).Some? && attributes[n].handle > 0
    ensures Tree(attributes[..n + 1]) == AddAttribute(Tree(attributes[..n]).value, attributes[n])
  {
    hide AddAttribute;
    assert attributes[..n + 1][..n] == attributes[..n];
  }

  lemma {:induction false} ParseStep(remaining: Bytes, previous: nat, tree: seq<Service>, a: Attribute, rest: Bytes)
    requires DecodeHead(remaining) == Some((a, rest)) && a.handle > previous
    ensures ParseFrom(remaining, previous, tree) ==
      match AddAttribute(tree, a)
      case None => None
      case Some(next) => ParseFrom(rest, a.handle, next)
  {
    hide DecodeHead, AddAttribute;
    HeadNeedsBytes();
  }

  lemma {:induction false} TreeNotEmpty(attributes: seq<Attribute>)
    requires attributes != [] && AttributesOk(attributes)
    ensures Tree(attributes) != Some([])
  {
  }

  lemma {:induction false} TableLengthIsExact(entries: seq<Entry>, n: nat)
    requires n <= |entries| && EntriesOk(entries) && Accepted(entries, n) && AttributesOk(Attributes(entries, n))
    ensures 1 + |EncodeAll(Attributes(entries, n))| == TableLength(entries, n) <= 32041
  {
    if n > 0 {
      AcceptedAttributes(entries, n - 1);
      TableLengthIsExact(entries, n - 1);
      assert Attributes(entries, n)[..n - 1] == Attributes(entries, n - 1);
      assert AttributeOk(Attributes(entries, n)[n - 1]);
    }
  }

  /**
    For every entry list the publisher accepts: the chunks reassemble to the bytes it serialised, whatever the
    receiver held before, and parsing them recovers every attribute, giving the tree those attributes describe.
   */
  lemma {:induction false} PublicationIsRecovered(entries: seq<Entry>, s: Assembly)
    requires entries != [] && EntriesOk(entries) && Accepted(entries, |entries|)
    ensures AttributesOk(Attributes(entries, |entries|))
    ensures var attributes := Attributes(entries, |entries|);
      var database := [2] + EncodeAll(attributes);
      && ReceiveAll(s, ChunksFrom(database, 0)) == Some(Assembly(database, false, true))
      && DecodeAll(database[1..]) == Some(attributes)
      && Parse(database) == Tree(attributes)
      && (Tree(attributes).Some? ==> Contiguous(Tree(attributes).value))
  {
    hide *;
    AcceptedAttributes(entries, |entries|);
    var attributes := Attributes(entries, |entries|);
    var database := [2] + EncodeAll(attributes);
    TableLengthIsExact(entries, |entries|);
    ChunksReassemble(database, s);
    assert database[1..] == EncodeAll(attributes);
    TableDecodes(attributes);
    ParseGivesTree(attributes);
    if Tree(attributes).Some? { ServicesAreContiguous(attributes); }
  }

  lemma {:induction false} ParseGivesTree(attributes: seq<Attribute>)
    requires attributes != [] && AttributesOk(attributes) && Rising(attributes)
    ensures Parse([2] + EncodeAll(attributes)) == Tree(attributes)
  {
    hide EncodeAll, EncodeFrom, ParseFrom, Tree, AttributesOk, Rising;
    var database := [2] + EncodeAll(attributes);
    assert database[1..] == EncodeAll(attributes);
    EncodeSplits(attributes, 0);
    NothingEncoded(attributes);
    TreeOfNothing(attributes);
    ParseFollowsTree(attributes, 0, []);
    TreeNotEmpty(attributes);
  }

  lemma {:induction false} TreeOfNothing(attributes: seq<Attribute>)
    requires AttributesOk(attributes)
    ensures AttributesOk(attributes[..0]) && Tree(attributes[..0]) == Some([])
  {
  }

  /** The services of an accepted table tile the handle space: each ends where the next begins, the last at 0xFFFF. */
  predicate Contiguous(services: seq<Service>) {
    && (forall i :: 0 <= i < |services| ==> services[i].start <= services[i].end)
    && (forall i :: 0 <= i < |services| - 1 ==> services[i].end + 1 == services[i + 1].start)
    && (services != [] ==> services[|services| - 1].end == 0xFFFF)
  }

  lemma {:induction false} ServicesAreContiguous(attributes: seq<Attribute>)
    requires AttributesOk(attributes) && Rising(attributes) && Tree(attributes).Some?
    ensures Contiguous(Tree(attributes).value)
    ensures attributes != [] ==>
      var services := Tree(attributes).value;
      services != [] && services[|services| - 1].start <= attributes[|attributes| - 1].handle
  {
    if attributes != [] {
      var n := |attributes| - 1;
      var before := Tree(attributes[..n]).value;
      ServicesAreContiguous(attributes[..n]);
      if n > 0 { assert attributes[..n][n - 1].handle < attributes[n].handle; }
      AddKeepsContiguous(before, attributes[n]);
    }
  }

  lemma {:induction false} AddKeepsContiguous(services: seq<Service>, a: Attribute)
    requires Contiguous(services) && AttributeOk(a) && AddAttribute(services, a).Some?
    requires services != [] ==> services[|services| - 1].start < a.handle
    ensures var after := AddAttribute(services, a).value;
      Contiguous(after) && after != [] && after[|after| - 1].start <= a.handle
  {
    hide UuidOk, Restricted, ReadLe16;
    var after := AddAttribute(services, a).value;
    if a.uuid == PRIMARY {
      forall i | 0 <= i < |after| - 1
        ensures after[i].end + 1 == after[i + 1].start
      {
        if i < |services| - 1 { assert services[i].end + 1 == services[i + 1].start; }
      }
    } else {
      SameExtents(services, after);
    }
  }

  /** Attributes inside a service change no service's range. */
  lemma {:induction false} SameExtents(services: seq<Service>, after: seq<Service>)
    requires |services| == |after| && Contiguous(services)
    requires forall i :: 0 <= i < |services| ==> after[i].start == services[i].start && after[i].end == services[i].end
    ensures Contiguous(after)
  {
    forall i | 0 <= i < |after| - 1
      ensures after[i].end + 1 == after[i + 1].start
    {
      assert services[i].end + 1 == services[i + 1].start;
    }
  }
}
