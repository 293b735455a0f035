/** An ATT server that reports its attribute table truthfully, in responses cut wherever it likes. */
module ConformingServer {
  import opened Bits
  import opened Division
  import opened GattBytes
  import opened Discovery

  /** What the server has to report for each kind of query, in handle order. */
  datatype Lists = Lists(groups: seq<Item>, characteristics: seq<Item>, information: seq<Item>)

  function ListOf(lists: Lists, kind: Kind): seq<Item> {
    match kind
    case Groups => lists.groups
    case Characteristics => lists.characteristics
    case Information => lists.information
  }

  predicate ItemOk(kind: Kind, item: Item) {
    && item.key <= item.reach <= TOP && UuidOk(item.uuid)
    && (kind == Characteristics ==> item.key < item.reach)
    && (kind == Information ==> item.reach == item.key)
    && (kind != Characteristics ==> item.properties == 0)
  }

  /** Items in order and disjoint. */
  predicate Sorted(kind: Kind, items: seq<Item>) {
    && (forall i :: 0 <= i < |items| ==> ItemOk(kind, items[i]))
    && (forall i, j :: 0 <= i < j < |items| ==> items[i].reach < items[j].key)
  }

  function Encode(kind: Kind, item: Item): Bytes
    requires ItemOk(kind, item)
  {
    match kind
    case Groups => Le16(item.key) + Le16(item.reach) + item.uuid
    case Characteristics => Le16(item.key) + [item.properties] + Le16(item.reach) + item.uuid
    case Information => Le16(item.key) + item.uuid
  }

  function EncodeList(kind: Kind, items: seq<Item>): Bytes
    requires forall i :: 0 <= i < |items| ==> ItemOk(kind, items[i])
  {
    if items == [] then [] else Encode(kind, items[0]) + EncodeList(kind, items[1..])
  }

  /** The first byte of a list whose UUIDs have the given size. */
  function Format(kind: Kind, uuidSize: nat): Byte
    requires uuidSize == 2 || uuidSize == 16
  {
    if kind == Information then (if uuidSize == 2 then 1 else 2) else Fixed(kind) + uuidSize
  }

  /** The items whose handle lies in a queried range. */
  function Visible(items: seq<Item>, start: nat, limit: int): seq<Item> {
    if items == [] then []
    else (if start <= items[0].key <= limit then [items[0]] else []) + Visible(items[1..], start, limit)
  }

  predicate Uniform(items: seq<Item>) {
    forall i :: 0 <= i < |items| ==> |items[i].uuid| == |items[0].uuid|
  }

  /** A truthful answer: nothing there, or some items from the first on, of one UUID size. */
  ghost predicate Answers(items: seq<Item>, q: Query, r: Response)
    requires Sorted(q.kind, items)
  {
    VisibleSorted(q.kind, items, q.start, q.limit);
    var all := Visible(items, q.start, q.limit);
    if all == [] then r == NotFound
    else
      exists k: nat :: 1 <= k <= |all| && Uniform(all[..k]) &&
        r == Value([Format(q.kind, |all[0].uuid|)] + EncodeList(q.kind, all[..k]))
  }

  ghost predicate Conforms(server: Server, lists: Lists) {
    && (forall kind :: Sorted(kind, ListOf(lists, kind)))
    && forall n: nat, q: Query :: Answers(ListOf(lists, q.kind), q, server(n, q))
  }

  // ----- Visible items -----

  lemma {:induction false} VisibleIn(items: seq<Item>, start: nat, limit: int, i: nat)
    requires i < |Visible(items, start, limit)|
    ensures Visible(items, start, limit)[i] in items
    ensures start <= Visible(items, start, limit)[i].key <= limit
  {
    if start <= items[0].key <= limit {
      if i > 0 { VisibleIn(items[1..], start, limit, i - 1); }
    } else {
      VisibleIn(items[1..], start, limit, i);
    }
  }

  lemma {:induction false} VisibleSorted(kind: Kind, items: seq<Item>, start: nat, limit: int)
    requires Sorted(kind, items)
    ensures Sorted(kind, Visible(items, start, limit))
  {
    if items != [] {
      VisibleSorted(kind, items[1..], start, limit);
      var rest := Visible(items[1..], start, limit);
      forall j | 0 <= j < |rest|
        ensures items[0].reach < rest[j].key
      {
        VisibleIn(items[1..], start, limit, j);
      }
    }
  }

  lemma {:induction false} VisibleFromLater(kind: Kind, items: seq<Item>, start: nat, limit: int, later: nat)
    requires start <= later && forall i :: 0 <= i < |items| ==> items[i].key >= later
    ensures Visible(items, start, limit) == Visible(items, later, limit)
  {
    if items != [] { VisibleFromLater(kind, items[1..], start, limit, later); }
  }

  lemma {:induction false} VisibleHead(items: seq<Item>, start: nat, limit: int)
    requires items != []
    ensures Visible(items, start, limit) ==
      if start <= items[0].key <= limit then [items[0]] + Visible(items[1..], start, limit)
        else Visible(items[1..], start, limit)
  {
  }

  /** Asking again just past the k-th visible item shows exactly the remaining ones. */
  lemma {:induction false} VisiblePast(kind: Kind, items: seq<Item>, start: nat, limit: int, k: nat)
    requires Sorted(kind, items) && 1 <= k <= |Visible(items, start, limit)|
    ensures var all := Visible(items, start, limit);
      all[k - 1].reach + 1 >= start && Visible(items, all[k - 1].reach + 1, limit) == all[k..]
  {
    hide *;
    VisibleSome(items, start, limit);
    TailSorted(kind, items);
    VisibleHead(items, start, limit);
    if !(start <= items[0].key <= limit) {
      VisiblePast(kind, items[1..], start, limit, k);
      PastHidden(kind, items, start, limit, k);
    } else if k == 1 {
      PastHead(kind, items, start, limit);
    } else {
      VisiblePast(kind, items[1..], start, limit, k - 1);
      PastLater(kind, items, start, limit, k);
    }
  }

  lemma {:induction false} VisibleSome(items: seq<Item>, start: nat, limit: int)
    ensures Visible(items, start, limit) != [] ==> items != []
  {
  }

  lemma {:induction false} PastHidden(kind: Kind, items: seq<Item>, start: nat, limit: int, k: nat)
    requires Sorted(kind, items) && items != [] && !(start <= items[0].key <= limit)
    requires 1 <= k <= |Visible(items[1..], start, limit)|
    ensures Visible(items, Visible(items[1..], start, limit)[k - 1].reach + 1, limit) ==
      Visible(items[1..], Visible(items[1..], start, limit)[k - 1].reach + 1, limit)
  {
    hide *;
    VisibleAfterHead(kind, items, start, limit);
    VisibleHead(items, Visible(items[1..], start, limit)[k - 1].reach + 1, limit);
  }

  lemma {:induction false} PastHead(kind: Kind, items: seq<Item>, start: nat, limit: int)
    requires Sorted(kind, items) && items != [] && start <= items[0].key <= limit
    ensures items[0].reach >= items[0].key
    ensures Visible(items, start, limit) == [items[0]] + Visible(items[1..], start, limit)
    ensures Visible(items, items[0].reach + 1, limit) == Visible(items[1..], start, limit) ==
      Visible(items, start, limit)[1..]
  {
    hide *;
    TailSorted(kind, items);
    VisibleHead(items, start, limit);
    VisibleFromLater(kind, items[1..], start, limit, items[0].reach + 1);
    VisibleHead(items, items[0].reach + 1, limit);
  }

  lemma {:induction false} PastLater(kind: Kind, items: seq<Item>, start: nat, limit: int, k: nat)
    requires Sorted(kind, items) && items != [] && start <= items[0].key <= limit
    requires 2 <= k <= |Visible(items, start, limit)|
    ensures var all, rest := Visible(items, start, limit), Visible(items[1..], start, limit);
      && |rest| == |all| - 1
      && all[k - 1] == rest[k - 2]
      && all[k..] == rest[k - 1..]
      && Visible(items, rest[k - 2].reach + 1, limit) == Visible(items[1..], rest[k - 2].reach + 1, limit)
  {
    hide *;
    VisibleHead(items, start, limit);
    var all, rest := Visible(items, start, limit), Visible(items[1..], start, limit);
    assert all[k..] == rest[k - 1..];
    VisibleAfterHead(kind, items, start, limit);
    VisibleHead(items, rest[k - 2].reach + 1, limit);
  }

  lemma {:induction false} TailSorted(kind: Kind, items: seq<Item>)
    requires Sorted(kind, items) && items != []
    ensures Sorted(kind, items[1..]) && items[0].key <= items[0].reach
    ensures forall i :: 0 <= i < |items[1..]| ==> items[1..][i].key > items[0].reach
  {
    assert ItemOk(kind, items[0]);
    forall i | 0 <= i < |items[1..]|
      ensures items[1..][i].key > items[0].reach && ItemOk(kind, items[1..][i])
    {
      assert items[1..][i] == items[i + 1];
    }
  }

  lemma {:induction false} Later(kind: Kind, items: seq<Item>, i: nat, j: nat)
    requires Sorted(kind, items) && i < j < |items|
    ensures items[i].reach < items[j].reach
  {
    assert ItemOk(kind, items[j]);
  }

  /** What is visible behind the head lies beyond it. */
  lemma {:induction false} VisibleAfterHead(kind: Kind, items: seq<Item>, start: nat, limit: int)
    requires Sorted(kind, items) && items != []
    ensures forall i :: 0 <= i < |Visible(items[1..], start, limit)| ==>
      var v := Visible(items[1..], start, limit)[i]; v.key > items[0].reach >= items[0].key && v.reach >= v.key
  {
    TailSorted(kind, items);
    forall i | 0 <= i < |Visible(items[1..], start, limit)|
      ensures var v := Visible(items[1..], start, limit)[i]; v.key > items[0].reach >= items[0].key && v.reach >= v.key
    {
      VisibleIn(items[1..], start, limit, i);
    }
  }

  // ----- Reading back an encoded list -----

  lemma {:induction false} DecodeEncoded(kind: Kind, item: Item)
    requires ItemOk(kind, item)
    ensures |Encode(kind, item)| == Fixed(kind) + |item.uuid|
    ensures Decode(kind, Encode(kind, item)) == item
  {
    var e := Encode(kind, item);
    match kind {
      case Groups =>
        assert e == Le16(item.key) + (Le16(item.reach) + item.uuid) && e[2..] == Le16(item.reach) + item.uuid
          && e[4..] == item.uuid;
        ReadWritten(item.key, Le16(item.reach) + item.uuid);
        ReadWritten(item.reach, item.uuid);
      case Characteristics =>
        assert e == Le16(item.key) + ([item.properties] + Le16(item.reach) + item.uuid)
          && e[3..] == Le16(item.reach) + item.uuid && e[5..] == item.uuid;
        ReadWritten(item.key, [item.properties] + Le16(item.reach) + item.uuid);
        ReadWritten(item.reach, item.uuid);
      case Information =>
        assert e[2..] == item.uuid;
        ReadWritten(item.key, item.uuid);
    }
  }

  lemma {:induction false} EncodedSize(kind: Kind, items: seq<Item>, uuidSize: nat)
    requires forall i :: 0 <= i < |items| ==> ItemOk(kind, items[i]) && |items[i].uuid| == uuidSize
    ensures |EncodeList(kind, items)| == |items| * (Fixed(kind) + uuidSize)
  {
    if items != [] {
      DecodeEncoded(kind, items[0]);
      EncodedSize(kind, items[1..], uuidSize);
      EncodedFirst(kind, items);
      hide EncodeList, Encode;
      assert |items| == 1 + |items[1..]|;
      Distributes(|items[1..]|, Fixed(kind) + uuidSize);
    }
  }

  lemma {:induction false} EncodedFirst(kind: Kind, items: seq<Item>)
    requires items != [] && forall i :: 0 <= i < |items| ==> ItemOk(kind, items[i])
    ensures |EncodeList(kind, items)| == |Encode(kind, items[0])| + |EncodeList(kind, items[1..])|
  {
    hide Encode;
  }

  lemma {:induction false} Distributes(n: nat, size: nat)
    ensures (1 + n) * size == size + n * size
  {
  }

  lemma {:induction false} TakeStep(kind: Kind, entries: Bytes, size: nat, next: nat, limit: nat, found: seq<Item>)
    requires size > Fixed(kind) && Whole(|entries|, size) && |entries| >= size && Whole(|entries[size..]|, size)
    requires Plausible(kind, Decode(kind, entries[..size]), next, limit, |found|)
    ensures var item := Decode(kind, entries[..size]);
      TakeEntries(kind, entries, size, next, limit, found) ==
        if item.reach == limit then Ended(found + [item])
          else TakeEntries(kind, entries[size..], size, item.reach + 1, limit, found + [item])
  {
  }

  predicate Fits(kind: Kind, items: seq<Item>, size: nat, next: nat, limit: nat, count: nat) {
    && items != []
    && Sorted(kind, items)
    && count + |items| <= MaxItems(kind)
    && items[0].key >= next
    && size > Fixed(kind)
    && forall i :: 0 <= i < |items| ==> items[i].reach <= limit && |items[i].uuid| == size - Fixed(kind)
  }

  lemma {:induction false} FitsTail(kind: Kind, items: seq<Item>, size: nat, next: nat, limit: nat, count: nat)
    requires Fits(kind, items, size, next, limit, count)
    ensures ItemOk(kind, items[0])
    ensures Plausible(kind, items[0], next, limit, count)
    ensures |items[0].uuid| == size - Fixed(kind)
    ensures |items| > 1 ==> Fits(kind, items[1..], size, items[0].reach + 1, limit, count + 1)
  {
    assert ItemOk(kind, items[0]);
    TailSorted(kind, items);
  }

  lemma {:induction false} EncodeListHead(kind: Kind, items: seq<Item>, size: nat)
    requires items != [] && (forall i :: 0 <= i < |items| ==> ItemOk(kind, items[i]))
    requires |items[0].uuid| == size - Fixed(kind)
    ensures var bytes := EncodeList(kind, items);
      && |bytes| >= size
      && bytes[size..] == EncodeList(kind, items[1..])
      && Decode(kind, bytes[..size]) == items[0]
      && (|items| == 1 ==> bytes[size..] == [])
  {
    DecodeEncoded(kind, items[0]);
    assert EncodeList(kind, items)[..size] == Encode(kind, items[0]);
  }

  lemma {:induction false} TakesHead(kind: Kind, items: seq<Item>, size: nat, next: nat, limit: nat, found: seq<Item>)
    requires Fits(kind, items, size, next, limit, |found|) && Whole(|EncodeList(kind, items)|, size)
    ensures Whole(|EncodeList(kind, items[1..])|, size)
    ensures TakeEntries(kind, EncodeList(kind, items), size, next, limit, found) ==
      if items[0].reach == limit then Ended(found + [items[0]])
      else TakeEntries(kind, EncodeList(kind, items[1..]), size, items[0].reach + 1, limit, found + [items[0]])
  {
    hide *;
    FitsParts(kind, items, size, next, limit, |found|);
    var bytes := EncodeList(kind, items);
    FitsTail(kind, items, size, next, limit, |found|);
    EncodeListHead(kind, items, size);
    DropMultiple(|bytes|, size);
    TakeStep(kind, bytes, size, next, limit, found);
  }

  lemma {:induction false} FitsParts(kind: Kind, items: seq<Item>, size: nat, next: nat, limit: nat, count: nat)
    requires Fits(kind, items, size, next, limit, count)
    ensures items != [] && size > Fixed(kind)
    ensures forall i :: 0 <= i < |items| ==> ItemOk(kind, items[i])
  {
    hide ItemOk, Fixed;
  }

  /** The client takes every entry of a truthful list, in order. */
  lemma {:induction false} TakesAll(kind: Kind, items: seq<Item>, size: nat, next: nat, limit: nat, found: seq<Item>)
    requires Fits(kind, items, size, next, limit, |found|) && Whole(|EncodeList(kind, items)|, size)
    ensures TakeEntries(kind, EncodeList(kind, items), size, next, limit, found) ==
      if items[|items| - 1].reach == limit then Ended(found + items)
        else Continues(found + items, items[|items| - 1].reach + 1)
  {
    hide *;
    TakesHead(kind, items, size, next, limit, found);
    FitsTail(kind, items, size, next, limit, |found|);
    ReachBeforeLimit(kind, items, size, next, limit, |found|);
    if |items| > 1 {
      var more := found + [items[0]];
      assert more + items[1..] == found + items;
      TakesAll(kind, items[1..], size, items[0].reach + 1, limit, more);
    } else {
      TakesNone(kind, items, size, items[0].reach + 1, limit, found);
    }
  }

  lemma {:induction false} TakesNone(kind: Kind, items: seq<Item>, size: nat, next: nat, limit: nat, found: seq<Item>)
    requires |items| == 1 && size > Fixed(kind)
    ensures EncodeList(kind, items[1..]) == []
    ensures Whole(0, size)
    ensures found + items == found + [items[0]]
    ensures TakeEntries(kind, [], size, next, limit, found + items) == Continues(found + items, next)
  {
    assert items == [items[0]];
  }

  lemma {:induction false} ReachBeforeLimit(kind: Kind, items: seq<Item>, size: nat, next: nat, limit: nat, count: nat)
    requires Fits(kind, items, size, next, limit, count)
    ensures items != []
    ensures size > Fixed(kind)
    ensures (|items| > 1 ==> items[0].reach != limit)
  {
    if |items| > 1 { Later(kind, items, 0, 1); }
  }

  /** One truthful response, as the client sees it. */
  lemma {:induction false} TakesResponse(kind: Kind, items: seq<Item>, start: nat, limit: nat, found: seq<Item>)
    requires items != [] && Sorted(kind, items) && Uniform(items) && |found| + |items| <= MaxItems(kind)
    requires items[0].key >= start
    requires forall i :: 0 <= i < |items| ==> items[i].reach <= limit
    ensures var value := [Format(kind, |items[0].uuid|)] + EncodeList(kind, items);
      && EntrySize(kind, value) == Some(Fixed(kind) + |items[0].uuid|)
      && TakeEntries(kind, value[1..], Fixed(kind) + |items[0].uuid|, start, limit, found) ==
           if items[|items| - 1].reach == limit then Ended(found + items)
             else Continues(found + items, items[|items| - 1].reach + 1)
  {
    var uuidSize := |items[0].uuid|;
    var size := Fixed(kind) + uuidSize;
    var bytes := EncodeList(kind, items);
    var value := [Format(kind, uuidSize)] + bytes;
    EncodedSize(kind, items, uuidSize);
    assert ItemOk(kind, items[0]);
    assert value[1..] == bytes && |bytes| == |items| * size;
    assert |bytes| >= size by { assert |items| * size >= 1 * size; }
    Quotient(|bytes|, size, |items|, 0);
    assert Fits(kind, items, size, start, limit, |found|);
    TakesAll(kind, items, size, start, limit, found);
  }

  /** There is room for the items still to be found, they end within the range, and a service list is not empty. */
  predicate Findable(kind: Kind, found: seq<Item>, all: seq<Item>, limit: nat) {
    && |found| + |all| <= MaxItems(kind)
    && (kind == Groups ==> found + all != [])
    && forall i :: 0 <= i < |all| ==> all[i].reach <= limit
  }

  lemma {:induction false} FindableRest(kind: Kind, found: seq<Item>, all: seq<Item>, limit: nat, k: nat)
    requires Findable(kind, found, all, limit) && k <= |all|
    ensures Findable(kind, found + all[..k], all[k..], limit)
    ensures found + all[..k] + all[k..] == found + all
  {
    assert found + all[..k] + all[k..] == found + all;
  }

  lemma {:induction false} SearchStep(server: Server, n: nat, kind: Kind, start: nat, limit: nat, found: seq<Item>,
        value: Bytes, size: nat)
    requires start <= limit <= TOP && server(n, Query(kind, start, limit)) == Value(value)
    requires EntrySize(kind, value) == Some(size)
    ensures Whole(|value[1..]|, size)
    ensures match TakeEntries(kind, value[1..], size, start, limit, found)
      case Refused => true
      case Ended(all) => Search(server, n, kind, start, limit, found).0 == Some(all)
      case Continues(more, next) =>
        start < next <= limit
          && Search(server, n, kind, start, limit, found).0 == Search(server, n + 1, kind, next, limit, more).0
  {
    assert |value[1..]| == |value| - 1 > 0;
    ContinuesWithinRange(kind, value[1..], size, start, limit, found);
  }

  /** The truthful answer to a query that shows something, with the number of items it reports. */
  lemma {:induction false} AnswerShows(server: Server, lists: Lists, n: nat, kind: Kind, start: nat, limit: nat)
    returns (k: nat)
    requires Conforms(server, lists) && Visible(ListOf(lists, kind), start, limit) != []
    ensures var all := Visible(ListOf(lists, kind), start, limit);
      && Sorted(kind, ListOf(lists, kind))
      && Sorted(kind, all)
      && 1 <= k <= |all|
      && Uniform(all[..k])
      && server(n, Query(kind, start, limit)) == Value([Format(kind, |all[0].uuid|)] + EncodeList(kind, all[..k]))
      && all[0].key >= start
  {
    var items := ListOf(lists, kind);
    var q := Query(kind, start, limit);
    assert Sorted(kind, items);
    assert Answers(items, q, server(n, q));
    VisibleSorted(kind, items, start, limit);
    var all := Visible(items, start, limit);
    VisibleIn(items, start, limit, 0);
    k :| 1 <= k <= |all| && Uniform(all[..k])
      && server(n, q) == Value([Format(kind, |all[0].uuid|)] + EncodeList(kind, all[..k]));
  }

  lemma {:induction false} FirstPart(kind: Kind, found: seq<Item>, all: seq<Item>, limit: nat, k: nat)
    requires Sorted(kind, all) && 1 <= k <= |all| && Findable(kind, found, all, limit)
    ensures var part := all[..k];
      && Sorted(kind, part)
      && |found| + |part| <= MaxItems(kind)
      && part[0] == all[0]
      && part[k - 1] == all[k - 1]
      && ItemOk(kind, all[0])
      && UuidOk(all[0].uuid)
      && (forall i :: 0 <= i < |part| ==> ItemOk(kind, part[i]) && part[i].reach <= limit)
      && all[0].key <= all[0].reach <= all[k - 1].reach <= limit
  {
    var part := all[..k];
    assert ItemOk(kind, all[0]);
    assert Sorted(kind, part);
    forall i | 0 <= i < |part| ensures ItemOk(kind, part[i]) && part[i].reach <= limit { assert part[i] == all[i]; }
    if k > 1 { Later(kind, all, 0, k - 1); }
  }

  /** What the client makes of one truthful response. */
  lemma {:induction false} ResponseTaken(server: Server, n: nat, kind: Kind, start: nat, limit: nat, found: seq<Item>,
        all: seq<Item>, k: nat)
    requires start <= limit <= TOP && 1 <= k <= |all| && Sorted(kind, all) && Uniform(all[..k])
    requires Findable(kind, found, all, limit)
    requires all[0].key >= start
    requires server(n, Query(kind, start, limit)) == Value([Format(kind, |all[0].uuid|)] + EncodeList(kind, all[..k]))
    ensures Search(server, n, kind, start, limit, found).0 ==
      if all[k - 1].reach == limit then Some(found + all[..k])
      else Search(server, n + 1, kind, all[k - 1].reach + 1, limit, found + all[..k]).0
    ensures all[k - 1].reach <= limit && start <= all[k - 1].reach
  {
    hide *;
    var part := all[..k];
    FirstPart(kind, found, all, limit, k);
    TakesResponse(kind, part, start, limit, found);
    SearchStep(server, n, kind, start, limit, found, [Format(kind, |all[0].uuid|)] + EncodeList(kind, part),
      Fixed(kind) + |all[0].uuid|);
  }

  /** One query of a search that still has something to find: what it adds, and where the search goes on. */
  lemma {:induction false} SearchFirst(server: Server, lists: Lists, n: nat, kind: Kind, start: nat, limit: nat,
        found: seq<Item>)
    returns (part: seq<Item>, rest: seq<Item>, next: nat)
    requires Conforms(server, lists) && start <= limit <= TOP && Visible(ListOf(lists, kind), start, limit) != []
    requires Findable(kind, found, Visible(ListOf(lists, kind), start, limit), limit)
    ensures Visible(ListOf(lists, kind), start, limit) == part + rest
    ensures Findable(kind, found + part, rest, limit)
    ensures next > start
    ensures next <= limit ==>
      && Search(server, n, kind, start, limit, found).0 == Search(server, n + 1, kind, next, limit, found + part).0
      && Visible(ListOf(lists, kind), next, limit) == rest
    ensures next > limit ==> rest == [] && Search(server, n, kind, start, limit, found).0 == Some(found + part)
  {
    hide *;
    var all := Visible(ListOf(lists, kind), start, limit);
    var k := AnswerShows(server, lists, n, kind, start, limit);
    ResponseTaken(server, n, kind, start, limit, found, all, k);
    FindableRest(kind, found, all, limit, k);
    part, rest, next := all[..k], all[k..], all[k - 1].reach + 1;
    if all[k - 1].reach == limit {
      NothingBeyond(kind, all, k, limit, found);
    } else {
      VisiblePast(kind, ListOf(lists, kind), start, limit, k);
    }
  }

  lemma {:induction false} SearchFindsNothing(server: Server, lists: Lists, n: nat, kind: Kind, start: nat,
        limit: nat, found: seq<Item>)
    requires Conforms(server, lists) && start <= limit <= TOP && Visible(ListOf(lists, kind), start, limit) == []
    requires Findable(kind, found, [], limit)
    ensures Search(server, n, kind, start, limit, found).0 == Some(found)
  {
    assert Answers(ListOf(lists, kind), Query(kind, start, limit), server(n, Query(kind, start, limit)));
  }

  /** However the server cuts its responses, a search finds exactly what is visible in its range. */
  lemma {:induction false} SearchFindsAll(server: Server, lists: Lists, n: nat, kind: Kind, start: nat, limit: nat,
        found: seq<Item>)
    requires Conforms(server, lists) && start <= limit <= TOP
    requires Findable(kind, found, Visible(ListOf(lists, kind), start, limit), limit)
    ensures Search(server, n, kind, start, limit, found).0 == Some(found + Visible(ListOf(lists, kind), start, limit))
    decreases limit - start
  {
    hide *;
    if Visible(ListOf(lists, kind), start, limit) == [] {
      SearchFindsNothing(server, lists, n, kind, start, limit, found);
      assert found + [] == found;
    } else {
      var part, rest, next := SearchFirst(server, lists, n, kind, start, limit, found);
      assert found + part + rest == found + (part + rest);
      if next <= limit {
        SearchFindsAll(server, lists, n + 1, kind, next, limit, found + part);
      } else {
        assert part + rest == part;
      }
    }
  }

  lemma {:induction false} NothingBeyond(kind: Kind, all: seq<Item>, k: nat, limit: nat, found: seq<Item>)
    requires Sorted(kind, all) && 1 <= k <= |all| && all[k - 1].reach == limit && Findable(kind, found, all, limit)
    ensures all[..k] == all
  {
    if k < |all| { Later(kind, all, k - 1, k); }
  }
}
