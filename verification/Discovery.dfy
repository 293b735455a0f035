/**
  GATT discovery over ATT: primary services, then each service's characteristics, then each
  characteristic's descriptors. The three searches walk handle ranges the same way and differ in
  the layout and the plausibility checks of their list entries.
 */
module Discovery {
  import opened Bits
  import opened Division
  import opened GattBytes

  datatype Kind = Groups | Characteristics | Information

  datatype Query = Query(kind: Kind, start: nat, limit: nat)

  /** Attribute Not Found, any other error, or the bytes after the response opcode. */
  datatype Response = NotFound | Fault | Value(bytes: Bytes)

  /** A server may answer the n-th query as it likes. */
  type Server = (nat, Query) -> Response

  /** A list entry: its first handle and the last handle it accounts for. */
  datatype Item = Item(key: nat, reach: nat, properties: Byte, uuid: Bytes)

  const TOP: nat := 0xFFFF

  function MaxItems(kind: Kind): nat {
    match kind
    case Groups => MAX_SERVICES
    case Characteristics => MAX_CHARACTERISTICS
    case Information => MAX_DESCRIPTORS
  }

  /** Bytes of an entry before its UUID. */
  function Fixed(kind: Kind): nat {
    match kind
    case Groups => 4
    case Characteristics => 5
    case Information => 2
  }

  /** The entry size a list announces; None for a list that is refused outright. */
  function EntrySize(kind: Kind, value: Bytes): (r: Option<nat>)
    ensures r.Some? ==>
      (r.value == Fixed(kind) + 2 || r.value == Fixed(kind) + 16) && |value| > r.value && Whole(|value| - 1, r.value)
  {
    if |value| < Fixed(kind) + 3 then None
    else
      var size := if kind != Information then value[0] as nat else if value[0] == 1 then 4
        else if value[0] == 2 then 18 else 0;
      if (size == Fixed(kind) + 2 || size == Fixed(kind) + 16) && Whole(|value| - 1, size) then
        assert |value| - 1 >= size by { MultipleAtLeast(|value| - 1, size); }
        Some(size)
      else None
  }

  function Decode(kind: Kind, entry: Bytes): (item: Item)
    requires |entry| >= Fixed(kind)
    ensures item.key <= TOP && item.reach <= TOP
  {
    match kind
    case Groups => Item(ReadLe16(entry), ReadLe16(entry[2..]), 0, entry[4..])
    case Characteristics => Item(ReadLe16(entry), ReadLe16(entry[3..]), entry[2], entry[5..])
    case Information => Item(ReadLe16(entry), ReadLe16(entry), 0, entry[2..])
  }

  /** An entry the client takes, `next` being the lowest handle it may still report. */
  predicate Plausible(kind: Kind, item: Item, next: nat, limit: nat, count: nat) {
    && item.key >= next
    && item.reach <= limit
    && count < MaxItems(kind)
    && (if kind == Characteristics then item.reach > item.key else item.reach >= item.key)
  }

  /** Reading a list: refused, at the end of the range, or to be continued at `next`. */
  datatype Taken = Refused | Ended(found: seq<Item>) | Continues(found: seq<Item>, next: nat)

  function TakeEntries(kind: Kind, entries: Bytes, size: nat, next: nat, limit: nat, found: seq<Item>): (r: Taken)
    requires size > Fixed(kind) && Whole(|entries|, size)
    ensures r.Continues? ==> r.next >= next && (entries != [] ==> r.next > next)
    decreases |entries|
  {
    if entries == [] then Continues(found, next)
    else
      MultipleAtLeast(|entries|, size);
      var item := Decode(kind, entries[..size]);
      if !Plausible(kind, item, next, limit, |found|) then Refused
      else if item.reach == limit then Ended(found + [item])
      else
        DropMultiple(|entries|, size);
        TakeEntries(kind, entries[size..], size, item.reach + 1, limit, found + [item])
  }

  lemma {:induction false} TakeNext(kind: Kind, entries: Bytes, size: nat, next: nat, limit: nat, found: seq<Item>)
    requires size > Fixed(kind) && Whole(|entries|, size)
    ensures entries == [] ==> TakeEntries(kind, entries, size, next, limit, found) == Continues(found, next)
    ensures entries != [] ==>
      && |entries| >= size
      && Whole(|entries| - size, size)
      && var item := Decode(kind, entries[..size]);
         TakeEntries(kind, entries, size, next, limit, found) ==
         if !Plausible(kind, item, next, limit, |found|) then Refused
         else if item.reach == limit then Ended(found + [item])
         else TakeEntries(kind, entries[size..], size, item.reach + 1, limit, found + [item])
  {
    hide Plausible, Decode, Whole;
    if entries != [] {
      MultipleAtLeast(|entries|, size);
      DropMultiple(|entries|, size);
    }
  }

  /** The loop over a response's entries. */
  method TakeList(kind: Kind, value: Bytes, start: nat, limit: nat, already: seq<Item>) returns (r: Taken)
    ensures r == if EntrySize(kind, value).None? then Refused
                 else TakeEntries(kind, value[1..], EntrySize(kind, value).value, start, limit, already)
  {
    hide TakeEntries, Plausible, Decode, Whole, EntrySize;
    var announced := EntrySize(kind, value);
    if announced.None? { return Refused; }
    var size := announced.value;
    var next: nat, found := start, already;
    var i := 1;
    while i < |value|
      invariant 1 <= i <= |value| && Whole(|value| - i, size)
      invariant TakeEntries(kind, value[i..], size, next, limit, found) ==
        TakeEntries(kind, value[1..], size, start, limit, already)
      decreases |value| - i
    {
      MultipleAtLeast(|value| - i, size);
      DropMultiple(|value| - i, size);
      assert value[i..][..size] == value[i..i + size] && value[i..][size..] == value[i + size..];
      TakeNext(kind, value[i..], size, next, limit, found);
      var item := Decode(kind, value[i..i + size]);
      if !Plausible(kind, item, next, limit, |found|) { return Refused; }
      found := found + [item];
      if item.reach == limit { return Ended(found); }
      next := item.reach + 1;
      i := i + size;
    }
    assert value[i..] == [];
    TakeNext(kind, [], size, next, limit, found);
    return Continues(found, next);
  }

  /** Requests until the range is exhausted: the items found, and the number of queries made so far. */
  function Search(server: Server, n: nat, kind: Kind, start: nat, limit: nat,
        found: seq<Item>): (r: (Option<seq<Item>>, nat))
    requires start <= limit <= TOP
    ensures n < r.1 <= n + (limit - start) + 1
    decreases limit - start
  {
    match server(n, Query(kind, start, limit))
    case NotFound => (if kind == Groups && found == [] then None else Some(found), n + 1)
    case Fault => (None, n + 1)
    case Value(value) =>
      match EntrySize(kind, value)
      case None => (None, n + 1)
      case Some(size) =>
        assert |value[1..]| == |value| - 1 > 0;
        ContinuesWithinRange(kind, value[1..], size, start, limit, found);
        match TakeEntries(kind, value[1..], size, start, limit, found)
        case Refused => (None, n + 1)
        case Ended(all) => (Some(all), n + 1)
        case Continues(more, next) => Search(server, n + 1, kind, next, limit, more)
  }

  lemma {:induction false} ContinuesWithinRange(kind: Kind, entries: Bytes, size: nat, next: nat, limit: nat,
        found: seq<Item>)
    requires size > Fixed(kind) && Whole(|entries|, size) && next <= limit
    ensures var r := TakeEntries(kind, entries, size, next, limit, found); r.Continues? ==> r.next <= limit
    decreases |entries|
  {
    if entries != [] {
      MultipleAtLeast(|entries|, size);
      var item := Decode(kind, entries[..size]);
      if Plausible(kind, item, next, limit, |found|) && item.reach < limit {
        DropMultiple(|entries|, size);
        ContinuesWithinRange(kind, entries[size..], size, item.reach + 1, limit, found + [item]);
      }
    }
  }

  // ----- What any answers lead to -----

  /** Items in order, disjoint, within a handle range. */
  predicate InRange(kind: Kind, items: seq<Item>, start: nat, limit: int) {
    && |items| <= MaxItems(kind)
    && (forall i :: 0 <= i < |items| ==>
          start <= items[i].key <= items[i].reach <= limit
            && (kind == Characteristics ==> items[i].key < items[i].reach))
    && (forall i, j :: 0 <= i < j < |items| ==> items[i].reach < items[j].key)
  }

  predicate Below(items: seq<Item>, next: nat) {
    forall i :: 0 <= i < |items| ==> items[i].reach < next
  }

  lemma {:induction false} AppendInRange(kind: Kind, found: seq<Item>, item: Item, start: nat, next: nat, limit: nat)
    requires start <= next && InRange(kind, found, start, limit) && Below(found, next)
    requires Plausible(kind, item, next, limit, |found|)
    ensures InRange(kind, found + [item], start, limit)
    ensures Below(found + [item], item.reach + 1)
  {
  }

  lemma {:induction false} EntriesInRange(kind: Kind, entries: Bytes, size: nat, next: nat, limit: nat,
        found: seq<Item>, start: nat)
    requires size > Fixed(kind) && Whole(|entries|, size) && start <= next
    requires InRange(kind, found, start, limit) && Below(found, next)
    ensures var r := TakeEntries(kind, entries, size, next, limit, found);
      (!r.Refused? ==> InRange(kind, r.found, start, limit)) && (r.Continues? ==> Below(r.found, r.next))
    decreases |entries|
  {
    hide InRange, Below;
    if entries != [] {
      MultipleAtLeast(|entries|, size);
      var item := Decode(kind, entries[..size]);
      if Plausible(kind, item, next, limit, |found|) { AppendInRange(kind, found, item, start, next, limit); }
      if Plausible(kind, item, next, limit, |found|) && item.reach != limit {
        DropMultiple(|entries|, size);
        EntriesInRange(kind, entries[size..], size, item.reach + 1, limit, found + [item], start);
      }
    }
  }

  lemma {:induction false} SearchInRange(server: Server, n: nat, kind: Kind, next: nat, limit: nat, found: seq<Item>,
        start: nat)
    requires start <= next <= limit <= TOP && InRange(kind, found, start, limit) && Below(found, next)
    ensures Search(server, n, kind, next, limit, found).0.Some? ==>
      InRange(kind, Search(server, n, kind, next, limit, found).0.value, start, limit)
    decreases limit - next
  {
    match server(n, Query(kind, next, limit)) {
      case Value(value) =>
        match EntrySize(kind, value) {
          case Some(size) =>
            EntriesInRange(kind, value[1..], size, next, limit, found, start);
            ContinuesWithinRange(kind, value[1..], size, next, limit, found);
            match TakeEntries(kind, value[1..], size, next, limit, found) {
              case Continues(more, m) => SearchInRange(server, n + 1, kind, m, limit, more, start);
              case _ =>
            }
          case None =>
        }
      case _ =>
    }
  }

  // ----- The whole discovery -----

  /** The last handle that can belong to characteristic `j`. */
  function LastHandle(characteristics: seq<Item>, j: nat, end: nat): int
    requires j < |characteristics|
  {
    if j + 1 < |characteristics| then characteristics[j + 1].key - 1 else end
  }

  /** The descriptors of characteristic `j`; none are asked for when its value is the last handle. */
  function SearchDescriptors(server: Server, n: nat, characteristics: seq<Item>, j: nat,
        end: nat): (r: (Option<seq<Item>>, nat))
    requires j < |characteristics| && characteristics[j].reach <= LastHandle(characteristics, j, end) <= TOP
    ensures n <= r.1
  {
    var last := LastHandle(characteristics, j, end);
    if characteristics[j].reach == last then (Some([]), n)
    else Search(server, n, Information, characteristics[j].reach + 1, last, [])
  }

  /** Everything found: the services, the characteristics of each, the descriptors of each of those. */
  datatype Found = Found(services: seq<Item>, characteristics: seq<seq<Item>>, descriptors: seq<seq<seq<Item>>>)

  predicate ServicesOk(services: seq<Item>) {
    InRange(Groups, services, 1, TOP)
  }

  /** Characteristics of the first `i` services. */
  function AllCharacteristics(server: Server, n: nat, services: seq<Item>, i: nat): (r: (Option<seq<seq<Item>>>, nat))
    requires ServicesOk(services) && i <= |services|
    ensures r.0.Some? ==> |r.0.value| == i
    ensures n <= r.1
  {
    if i == 0 then (Some([]), n)
    else
      match AllCharacteristics(server, n, services, i - 1)
      case (None, m) => (None, m)
      case (Some(before), m) =>
        match Search(server, m, Characteristics, services[i - 1].key, services[i - 1].reach, [])
        case (None, k) => (None, k)
        case (Some(items), k) => (Some(before + [items]), k)
  }

  /** Descriptors of the first `j` characteristics of one service. */
  function ServiceDescriptors(server: Server, n: nat, characteristics: seq<Item>, end: nat, start: nat,
        j: nat): (r: (Option<seq<seq<Item>>>, nat))
    requires InRange(Characteristics, characteristics, start, end) && end <= TOP && j <= |characteristics|
    ensures r.0.Some? ==> |r.0.value| == j
    ensures n <= r.1
  {
    if j == 0 then (Some([]), n)
    else
      match ServiceDescriptors(server, n, characteristics, end, start, j - 1)
      case (None, m) => (None, m)
      case (Some(before), m) =>
        match SearchDescriptors(server, m, characteristics, j - 1, end)
        case (None, k) => (None, k)
        case (Some(items), k) => (Some(before + [items]), k)
  }

  predicate CharacteristicsOk(services: seq<Item>, characteristics: seq<seq<Item>>) {
    |services| == |characteristics| &&
    forall i :: 0 <= i < |services| ==> InRange(Characteristics, characteristics[i], services[i].key, services[i].reach)
  }

  /** Descriptors of the first `i` services. */
  function AllDescriptors(server: Server, n: nat, services: seq<Item>, characteristics: seq<seq<Item>>,
        i: nat): (r: (Option<seq<seq<seq<Item>>>>, nat))
    requires ServicesOk(services) && CharacteristicsOk(services, characteristics) && i <= |services|
    ensures r.0.Some? ==> |r.0.value| == i
    ensures n <= r.1
  {
    if i == 0 then (Some([]), n)
    else
      match AllDescriptors(server, n, services, characteristics, i - 1)
      case (None, m) => (None, m)
      case (Some(before), m) =>
        var s := services[i - 1];
        match ServiceDescriptors(server, m, characteristics[i - 1], s.reach, s.key, |characteristics[i - 1]|)
        case (None, k) => (None, k)
        case (Some(items), k) => (Some(before + [items]), k)
  }

  lemma {:induction false} CharacteristicsInRange(server: Server, n: nat, services: seq<Item>, i: nat)
    requires ServicesOk(services) && i <= |services| && AllCharacteristics(server, n, services, i).0.Some?
    ensures var r := AllCharacteristics(server, n, services, i).0.value;
      forall k :: 0 <= k < i ==> InRange(Characteristics, r[k], services[k].key, services[k].reach)
  {
    if i > 0 {
      CharacteristicsInRange(server, n, services, i - 1);
      var m := AllCharacteristics(server, n, services, i - 1).1;
      SearchInRange(server, m, Characteristics, services[i - 1].key, services[i - 1].reach, [], services[i - 1].key);
    }
  }

  function Discover(server: Server): Option<Found> {
    SearchInRange(server, 0, Groups, 1, TOP, [], 1);
    match Search(server, 0, Groups, 1, TOP, [])
    case (None, _) => None
    case (Some(services), n) =>
      match AllCharacteristics(server, n, services, |services|)
      case (None, _) => None
      case (Some(characteristics), m) =>
        CharacteristicsInRange(server, n, services, |services|);
        match AllDescriptors(server, m, services, characteristics, |services|)
        case (None, _) => None
        case (Some(descriptors), _) => Some(Found(services, characteristics, descriptors))
  }

  /**
    Services in order and disjoint; characteristics inside their service; descriptors between value and next
    declaration.
   */
  predicate WellFormed(f: Found) {
    && ServicesOk(f.services)
    && CharacteristicsOk(f.services, f.characteristics)
    && |f.descriptors| == |f.services|
    && forall i :: 0 <= i < |f.services| ==> DescriptorsOk(f.characteristics[i], f.services[i].reach, f.descriptors[i])
  }

  predicate DescriptorsOk(characteristics: seq<Item>, end: nat, lists: seq<seq<Item>>) {
    && |lists| == |characteristics|
    && forall j :: 0 <= j < |characteristics| ==>
         InRange(Information, lists[j], characteristics[j].reach + 1, LastHandle(characteristics, j, end))
  }

  lemma {:induction false} OneDescriptorsInRange(server: Server, n: nat, characteristics: seq<Item>, end: nat,
        start: nat, j: nat)
    requires InRange(Characteristics, characteristics, start, end) && end <= TOP && j < |characteristics|
    requires SearchDescriptors(server, n, characteristics, j, end).0.Some?
    ensures InRange(Information, SearchDescriptors(server, n, characteristics, j, end).0.value,
      characteristics[j].reach + 1, LastHandle(characteristics, j, end))
  {
    var first, last := characteristics[j].reach + 1, LastHandle(characteristics, j, end);
    if first <= last { SearchInRange(server, n, Information, first, last, [], first); }
  }

  lemma {:induction false} DescriptorsInRange(server: Server, n: nat, characteristics: seq<Item>, end: nat,
        start: nat, j: nat)
    requires InRange(Characteristics, characteristics, start, end) && end <= TOP && j <= |characteristics|
    requires ServiceDescriptors(server, n, characteristics, end, start, j).0.Some?
    ensures var r := ServiceDescriptors(server, n, characteristics, end, start, j).0.value;
      forall k :: 0 <= k < j ==>
        InRange(Information, r[k], characteristics[k].reach + 1, LastHandle(characteristics, k, end))
  {
    hide InRange, SearchDescriptors, LastHandle;
    if j > 0 {
      DescriptorsInRange(server, n, characteristics, end, start, j - 1);
      OneDescriptorsInRange(server, ServiceDescriptors(server, n, characteristics, end, start, j - 1).1,
        characteristics, end, start, j - 1);
    }
  }

  lemma {:induction false} AllDescriptorsInRange(server: Server, n: nat, services: seq<Item>,
        characteristics: seq<seq<Item>>, i: nat)
    requires ServicesOk(services) && CharacteristicsOk(services, characteristics) && i <= |services|
    requires AllDescriptors(server, n, services, characteristics, i).0.Some?
    ensures var r := AllDescriptors(server, n, services, characteristics, i).0.value;
      forall k :: 0 <= k < i ==> DescriptorsOk(characteristics[k], services[k].reach, r[k])
  {
    if i > 0 {
      LastDescriptorsInRange(server, n, services, characteristics, i);
      hide *;
      AllDescriptorsInRange(server, n, services, characteristics, i - 1);
    }
  }

  lemma {:induction false} LastDescriptorsInRange(server: Server, n: nat, services: seq<Item>,
        characteristics: seq<seq<Item>>, i: nat)
    requires ServicesOk(services) && CharacteristicsOk(services, characteristics) && 0 < i <= |services|
    requires AllDescriptors(server, n, services, characteristics, i).0.Some?
    ensures AllDescriptors(server, n, services, characteristics, i - 1).0.Some?
    ensures var r := AllDescriptors(server, n, services, characteristics, i).0.value;
      && |r| == i
      && r[..i - 1] == AllDescriptors(server, n, services, characteristics, i - 1).0.value
      && DescriptorsOk(characteristics[i - 1], services[i - 1].reach, r[i - 1])
  {
    var m := AllDescriptors(server, n, services, characteristics, i - 1).1;
    hide InRange, LastHandle, ServiceDescriptors;
    DescriptorsInRange(server, m, characteristics[i - 1], services[i - 1].reach, services[i - 1].key,
      |characteristics[i - 1]|);
  }

  /** Against any answers at all, what discovery accepts is a well-formed tree. That it ends is Search's measure. */
  lemma {:induction false} DiscoveryIsWellFormed(server: Server)
    requires Discover(server).Some?
    ensures WellFormed(Discover(server).value)
    ensures Discover(server).value.services != []
  {
    SearchInRange(server, 0, Groups, 1, TOP, [], 1);
    SomeServices(server, 0, 1, []);
    var (groups, n) := Search(server, 0, Groups, 1, TOP, []);
    var services := groups.value;
    var (lists, m) := AllCharacteristics(server, n, services, |services|);
    CharacteristicsInRange(server, n, services, |services|);
    AllDescriptorsInRange(server, m, services, lists.value, |services|);
  }

  lemma {:induction false} SomeServices(server: Server, n: nat, start: nat, found: seq<Item>)
    requires start <= TOP && Search(server, n, Groups, start, TOP, found).0.Some?
    ensures Search(server, n, Groups, start, TOP, found).0.value != []
    decreases TOP - start
  {
    match server(n, Query(Groups, start, TOP)) {
      case Value(value) =>
        var size := EntrySize(Groups, value).value;
        ContinuesWithinRange(Groups, value[1..], size, start, TOP, found);
        match TakeEntries(Groups, value[1..], size, start, TOP, found) {
          case Continues(more, next) => SomeServices(server, n + 1, next, more);
          case Ended(all) => EndedNotEmpty(Groups, value[1..], size, start, TOP, found);
        }
      case _ =>
    }
  }

  lemma {:induction false} EndedNotEmpty(kind: Kind, entries: Bytes, size: nat, next: nat, limit: nat, found: seq<Item>)
    requires size > Fixed(kind) && Whole(|entries|, size) && TakeEntries(kind, entries, size, next, limit, found).Ended?
    ensures TakeEntries(kind, entries, size, next, limit, found).found != []
    decreases |entries|
  {
    MultipleAtLeast(|entries|, size);
    var item := Decode(kind, entries[..size]);
    if item.reach != limit {
      DropMultiple(|entries|, size);
      EndedNotEmpty(kind, entries[size..], size, item.reach + 1, limit, found + [item]);
    }
  }
}
