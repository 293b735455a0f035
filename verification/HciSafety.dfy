/** For a host that keeps to its credits, over any run: the queue never fills up, and no credit check fails. */
module HciSafety {
  import opened Bits
  import opened L2cap
  import opened HciQueue
  import opened HciDelivery

  // ----- What the queue holds, by origin -----

  predicate FromCommand(p: Packet) {
    p.Completion? || p.CommandEvent? || (p.Disconnected? && p.byCommand)
  }

  predicate FromPeer(p: Packet) {
    !FromCommand(p) && !p.Credits?
  }

  predicate LinkItem(p: Packet) {
    p.Connected? || p.Disconnected?
  }

  function PeerCount(q: seq<Packet>): nat {
    if q == [] then 0 else (if FromPeer(q[0]) then 1 else 0) + PeerCount(q[1..])
  }

  function CommandsOf(q: seq<Packet>): seq<Packet> {
    if q == [] then [] else (if FromCommand(q[0]) then [q[0]] else []) + CommandsOf(q[1..])
  }

  function CreditCount(q: seq<Packet>): nat {
    if q == [] then 0 else (if q[0].Credits? then 1 else 0) + CreditCount(q[1..])
  }

  function CreditSum(q: seq<Packet>): nat {
    if q == [] then 0 else (if q[0].Credits? then q[0].count else 0) + CreditSum(q[1..])
  }

  lemma {:induction false} PopCounts(q: seq<Packet>)
    requires q != []
    ensures var r := q[1..];
      && PeerCount(q) == PeerCount(r) + (if FromPeer(q[0]) then 1 else 0)
      && CreditSum(q) == CreditSum(r) + (if q[0].Credits? then q[0].count else 0)
      && CreditCount(q) == CreditCount(r) + (if q[0].Credits? then 1 else 0)
      && CommandsOf(q) == (if FromCommand(q[0]) then [q[0]] else []) + CommandsOf(r)
  {
  }

  lemma {:induction false} CountsNothing()
    ensures PeerCount([]) == 0
    ensures CreditCount([]) == 0
    ensures CreditSum([]) == 0
    ensures CommandsOf([]) == []
  {
  }

  lemma {:induction false} CountsAppend(q: seq<Packet>, r: seq<Packet>)
    ensures PeerCount(q + r) == PeerCount(q) + PeerCount(r)
    ensures CreditCount(q + r) == CreditCount(q) + CreditCount(r)
    ensures CreditSum(q + r) == CreditSum(q) + CreditSum(r)
    ensures CommandsOf(q + r) == CommandsOf(q) + CommandsOf(r)
  {
    hide *;
    if q == [] {
      CountsNothing();
      assert q + r == r && [] + CommandsOf(r) == CommandsOf(r);
    } else {
      PopCounts(q);
      PopCounts(q + r);
      assert (q + r)[1..] == q[1..] + r && (q + r)[0] == q[0];
      CountsAppend(q[1..], r);
      var head, rest, last := if FromCommand(q[0]) then [q[0]] else [], CommandsOf(q[1..]), CommandsOf(r);
      assert head + (rest + last) == head + rest + last;
    }
  }

  lemma {:induction false} CountsTotal(q: seq<Packet>)
    ensures |q| == PeerCount(q) + |CommandsOf(q)| + CreditCount(q)
  {
    if q != [] { CountsTotal(q[1..]); }
  }

  lemma {:induction false} CountsOne(p: Packet)
    ensures PeerCount([p]) == (if FromPeer(p) then 1 else 0)
    ensures CommandsOf([p]) == (if FromCommand(p) then [p] else [])
    ensures CreditCount([p]) == (if p.Credits? then 1 else 0)
    ensures CreditSum([p]) == (if p.Credits? then p.count else 0)
  {
    assert [p][1..] == [];
  }

  lemma {:induction false} CountsData(q: seq<Packet>)
    requires forall i :: 0 <= i < |q| ==> q[i].Data?
    ensures PeerCount(q) == |q| && CommandsOf(q) == [] && CreditSum(q) == 0
  {
    if q != [] { CountsData(q[1..]); }
  }

  // ----- The invariant -----

  /** At most one completion, with at most one event of a command before it and one behind it. */
  predicate Shape(commands: seq<Packet>, commandOut: bool) {
    if !commandOut then |commands| <= 1 && (commands != [] ==> !commands[0].Completion?)
    else
      || (1 <= |commands| <= 2 && commands[0].Completion? && (|commands| == 2 ==> !commands[1].Completion?))
      || (2 <= |commands| <= 3 && !commands[0].Completion? && commands[1].Completion?
          && (|commands| == 3 ==> !commands[2].Completion?))
  }

  const PEER_BOUND: nat := 28

  predicate Bounded(c: Controller) {
    PeerCount(c.events) <= PEER_BOUND + (if c.connection == 0 then 1 else 0)
  }

  predicate NoLinkItem(q: seq<Packet>) {
    forall i :: 0 <= i < |q| ==> !LinkItem(q[i])
  }

  /** Reports are for the handle the host knows, and no change of the link is queued ahead of them. */
  predicate CreditsFirst(q: seq<Packet>, known: Option<nat>) {
    && (forall i :: 0 <= i < |q| && q[i].Credits? ==> q[i].count > 0 && known == Some(q[i].handle))
    && (forall i, j :: 0 <= i < j < |q| && q[j].Credits? ==> !LinkItem(q[i]))
  }

  /** A connection that is announced but already followed by another change is not the present one. */
  predicate LinksInOrder(q: seq<Packet>, connection: nat) {
    forall i, j :: 0 <= i < j < |q| && q[i].Connected? && LinkItem(q[j]) ==> q[i].handle != connection
  }

  predicate HandlesKnown(c: Controller, h: Host) {
    && (forall i :: 0 <= i < |c.events| && LinkItem(c.events[i]) ==> 0 < c.events[i].handle <= c.lastHandle)
    && (h.known.Some? ==> 0 < h.known.value <= c.lastHandle)
    && (c.connection == 0 || c.connection == c.lastHandle)
  }

  predicate Links(c: Controller, h: Host) {
    && CreditsFirst(c.events, h.known)
    && LinksInOrder(c.events, c.connection)
    && HandlesKnown(c, h)
    && (c.completed > 0 ==> c.connection != 0 && h.known == Some(c.connection))
    && (!NoLinkItem(c.events) ==> c.connection == 0 || h.known != Some(c.connection))
  }

  predicate Balanced(c: Controller, h: Host) {
    CreditSum(c.events) + c.completed <= h.unanswered <= CREDITS
  }

  predicate Core(c: Controller, h: Host) {
    && Bounded(c)
    && Shape(CommandsOf(c.events), h.commandOut)
    && Links(c, h)
    && Balanced(c, h)
    && (c.commandPending ==> h.commandOut)
  }

  /** The completion that is being handed over lets the host send its next command. */
  predicate HandedOver(c: Controller) {
    c.inFlight && !c.cancelled && c.events != [] && c.events[0].Completion? ==> !c.commandPending
  }

  predicate Inv(s: System) {
    Core(s.controller, s.host) && HandedOver(s.controller) && Delivering(s)
  }

  // ----- The bound -----

  lemma {:induction false} CreditItems(q: seq<Packet>, known: Option<nat>)
    requires CreditsFirst(q, known)
    ensures CreditCount(q) <= CreditSum(q)
  {
    if q != [] {
      assert CreditsFirst(q[1..], known) by { TailCredits(q, known); }
      CreditItems(q[1..], known);
    }
  }

  lemma {:induction false} TailCredits(q: seq<Packet>, known: Option<nat>)
    requires CreditsFirst(q, known) && q != []
    ensures CreditsFirst(q[1..], known)
  {
    var t := q[1..];
    forall i | 0 <= i < |t| ensures t[i] == q[i + 1] {}
  }

  /** 29 packets on the peer's account, three on a command's, twelve reports: the queue stays below its capacity. */
  lemma {:induction false} NeverFull(c: Controller, h: Host)
    requires Core(c, h)
    ensures |c.events| <= 44 < CAPACITY
  {
    CountsTotal(c.events);
    CreditItems(c.events, h.known);
  }

  // ----- Packets at the end of the queue -----

  /** Packets that neither change the link nor report credits. */
  predicate Plain(more: seq<Packet>) {
    forall i :: 0 <= i < |more| ==> !LinkItem(more[i]) && !more[i].Credits?
  }

  lemma {:induction false} PlainAppends(q: seq<Packet>, more: seq<Packet>, known: Option<nat>, connection: nat)
    requires Plain(more) && CreditsFirst(q, known) && LinksInOrder(q, connection)
    ensures CreditsFirst(q + more, known)
    ensures LinksInOrder(q + more, connection)
    ensures (NoLinkItem(q + more) <==> NoLinkItem(q))
    ensures forall i :: 0 <= i < |q + more| && LinkItem((q + more)[i]) ==> i < |q| && (q + more)[i] == q[i]
  {
    if NoLinkItem(q + more) {
      forall i | 0 <= i < |q| ensures !LinkItem(q[i]) { assert q[i] == (q + more)[i]; }
    }
  }

  lemma {:induction false} PlainLinks(c: Controller, h: Host, more: seq<Packet>)
    requires Links(c, h) && Plain(more)
    ensures Links(QueueAll(c, more), h)
  {
    PlainAppends(c.events, more, h.known, c.connection);
    hide CreditsFirst, LinksInOrder, NoLinkItem, Plain;
  }

  lemma {:induction false} PlainCounts(q: seq<Packet>, more: seq<Packet>)
    requires Plain(more)
    ensures CreditSum(q + more) == CreditSum(q) && CreditSum(more) == 0
  {
    CountsAppend(q, more);
    NoCredits(more);
  }

  lemma {:induction false} NoCredits(q: seq<Packet>)
    requires Plain(q)
    ensures CreditSum(q) == 0
  {
    if q != [] { NoCredits(q[1..]); }
  }

  /** Packets of the peer, while there is room for them. */
  lemma {:induction false} PeerPackets(c: Controller, h: Host, more: seq<Packet>)
    requires Core(c, h) && Plain(more) && CommandsOf(more) == [] && PeerCount(c.events) + PeerCount(more) <= PEER_BOUND
    ensures Core(QueueAll(c, more), h)
  {
    CountsAppend(c.events, more);
    PlainCounts(c.events, more);
    PlainLinks(c, h, more);
    assert CommandsOf(c.events) + [] == CommandsOf(c.events);
    hide Shape, Links, Plain, CommandsOf, PeerCount, CreditSum;
  }

  lemma {:induction false} QueueIsAll(c: Controller, p: Packet)
    ensures Queue(c, p, false) == QueueAll(c, [p])
  {
  }

  lemma {:induction false} ShortQueue(c: Controller)
    requires |c.events| < POLL_LIMIT
    ensures PeerCount(c.events) < POLL_LIMIT
  {
    CountsTotal(c.events);
  }

  lemma {:induction false} EncryptKeeps(c: Controller, h: Host, masked: bool)
    requires Core(c, h) && |c.events| < POLL_LIMIT
    ensures Core(Queue(c, EncryptionRequest, masked), h)
  {
    hide Core;
    ShortQueue(c);
    CountsOne(EncryptionRequest);
    QueueIsAll(c, EncryptionRequest);
    if !masked { PeerPackets(c, h, [EncryptionRequest]); }
  }

  lemma {:induction false} SduKeeps(c: Controller, h: Host, data: Bytes)
    requires Core(c, h) && |c.events| < POLL_LIMIT && |data| <= MAX_SDU
    ensures Core(QueueAll(c, DataPackets(Fragments(c.connection, data, 0))), h)
  {
    hide Core, Fragments;
    ShortQueue(c);
    var more := DataPackets(Fragments(c.connection, data, 0));
    AtMostFive(c.connection, data);
    CountsData(more);
    PeerPackets(c, h, more);
  }

  // ----- Changes of the link -----

  /** A new connection or the end of one, as the queue records it. */
  lemma {:induction false} LinkAppends(q: seq<Packet>, p: Packet, known: Option<nat>, before: nat, after: nat)
    requires LinkItem(p) && CreditsFirst(q, known) && LinksInOrder(q, before)
    requires forall i :: 0 <= i < |q| && q[i].Connected? ==> q[i].handle != after
    ensures CreditsFirst(q + [p], known)
    ensures LinksInOrder(q + [p], after)
    ensures !NoLinkItem(q + [p])
  {
    assert LinkItem((q + [p])[|q|]);
  }

  lemma {:induction false} ConnectLinks(c: Controller, h: Host, masked: bool)
    requires Links(c, h) && c.connection == 0
    ensures var n := c.lastHandle + 1;
      Links(Queue(c.(connection := n, lastHandle := n, reported := 0, sent := 0), Connected(n), masked), h)
  {
    var n := c.lastHandle + 1;
    forall i | 0 <= i < |c.events| && c.events[i].Connected?
      ensures c.events[i].handle != n
    {
      assert LinkItem(c.events[i]);
    }
    assert LinksInOrder(c.events, n);
    LinkAppends(c.events, Connected(n), h.known, 0, n);
    hide CreditsFirst, LinksInOrder, NoLinkItem;
  }

  lemma {:induction false} ConnectKeeps(c: Controller, h: Host, masked: bool)
    requires Core(c, h) && c.connection == 0 && |c.events| < POLL_LIMIT
    ensures var n := c.lastHandle + 1;
      Core(Queue(c.(connection := n, lastHandle := n, reported := 0, sent := 0), Connected(n), masked), h)
  {
    var n := c.lastHandle + 1;
    ConnectLinks(c, h, masked);
    ShortQueue(c);
    CountsAppend(c.events, [Connected(n)]);
    CountsOne(Connected(n));
    NothingCompleted(c, h);
    assert CommandsOf(c.events) + [] == CommandsOf(c.events);
    hide Shape, Links, CommandsOf, PeerCount, CreditSum;
  }

  lemma {:induction false} NothingCompleted(c: Controller, h: Host)
    requires Links(c, h) && c.connection == 0
    ensures c.completed == 0
  {
  }

  lemma {:induction false} DropLinks(c: Controller, h: Host, byCommand: bool, masked: bool)
    requires Links(c, h) && c.connection != 0
    ensures Links(Drop(c, byCommand, masked), h)
  {
    forall i | 0 <= i < |c.events| && c.events[i].Connected?
      ensures c.events[i].handle != 0
    {
      assert LinkItem(c.events[i]);
    }
    assert LinksInOrder(c.events, 0);
    LinkAppends(c.events, Disconnected(c.connection, byCommand), h.known, c.connection, 0);
    hide CreditsFirst, LinksInOrder, NoLinkItem;
  }

  lemma {:induction false} DropCounts(c: Controller, h: Host, masked: bool)
    requires Bounded(c) && Balanced(c, h) && c.connection != 0
    ensures var d := Drop(c, false, masked);
      && Bounded(d)
      && Balanced(d, h)
      && CommandsOf(d.events) == CommandsOf(c.events)
      && d.commandPending == c.commandPending
  {
    var p := Disconnected(c.connection, false);
    CountsAppend(c.events, [p]);
    CountsOne(p);
    assert CommandsOf(c.events) + [] == CommandsOf(c.events);
    hide CommandsOf, PeerCount, CreditSum;
  }

  /** The link ends, on the peer's account or because the peer is lost. */
  lemma {:induction false} DropKeeps(c: Controller, h: Host, masked: bool)
    requires Core(c, h)
    ensures Core(Drop(c, false, masked), h)
  {
    if c.connection != 0 {
      DropLinks(c, h, false, masked);
      DropCounts(c, h, masked);
      hide Shape, Links, CommandsOf, Bounded, Balanced, Drop;
    }
  }

  // ----- The worker -----

  lemma {:induction false} MessageKeeps(c: Controller, h: Host, m: Message)
    requires Core(c, h) && |c.events| < POLL_LIMIT
    ensures Core(TakeMessage(c, m), h)
  {
    hide Core, Queue, QueueAll, Drop;
    match m {
      case Connect(acceptable, masked) => if c.connection == 0 { ConnectKeeps(c, h, masked); }
      case Disconnect(masked) => DropKeeps(c, h, masked);
      case Sdu(data) => if SduOk(data) { SduKeeps(c, h, data); }
      case Encrypt(masked) => EncryptKeeps(c, h, masked);
      case Other =>
    }
  }

  lemma {:induction false} MessagesKeep(c: Controller, h: Host, messages: seq<Message>)
    requires Core(c, h)
    ensures Core(TakeMessages(c, messages), h)
    decreases |messages|
  {
    hide Core, TakeMessage;
    if messages != [] && |c.events| < POLL_LIMIT {
      MessageKeeps(c, h, messages[0]);
      MessagesKeep(TakeMessage(c, messages[0]), h, messages[1..]);
    }
  }

  lemma {:induction false} PollPeerKeeps(c: Controller, h: Host, i: Input)
    requires Core(c, h)
    ensures Core(PollPeer(c, i), h)
  {
    hide Core, TakeMessages, Drop;
    MessagesKeep(c, h, i.messages);
    DropKeeps(TakeMessages(c, i.messages), h, i.masked);
  }

  lemma {:induction false} ReportLinks(c: Controller, h: Host)
    requires Links(c, h) && c.completed > 0
    ensures Links(ReportCredits(c), h)
  {
    hide HandlesKnown, ReportCredits;
    var q, p := c.events, Credits(c.connection, c.completed);
    ReportEffect(c);
    ReportAppends(q, p, h.known, c.connection);
    ReportKeepsHandles(c, h);
    hide CreditsFirst, LinksInOrder, NoLinkItem;
  }

  lemma {:induction false} ReportAppends(q: seq<Packet>, p: Packet, known: Option<nat>, connection: nat)
    requires p.Credits? && p.count > 0 && known == Some(p.handle)
    requires CreditsFirst(q, known) && LinksInOrder(q, connection) && NoLinkItem(q)
    ensures CreditsFirst(q + [p], known) && LinksInOrder(q + [p], connection) && NoLinkItem(q + [p])
  {
  }

  lemma {:induction false} ReportKeepsHandles(c: Controller, h: Host)
    requires HandlesKnown(c, h) && c.completed > 0
    ensures HandlesKnown(ReportCredits(c), h)
  {
    hide ReportCredits;
    ReportEffect(c);
  }

  lemma {:induction false} ReportEffect(c: Controller)
    requires c.completed > 0
    ensures var d := ReportCredits(c);
      && d.events == c.events + [Credits(c.connection, c.completed)]
      && d.completed == 0
      && d.connection == c.connection
      && d.lastHandle == c.lastHandle
      && d.commandPending == c.commandPending
  {
  }

  lemma {:induction false} ReportNothing(c: Controller)
    requires c.completed == 0
    ensures ReportCredits(c) == c
  {
  }

  lemma {:induction false} ReportKeeps(c: Controller, h: Host)
    requires Core(c, h)
    ensures Core(ReportCredits(c), h)
  {
    hide ReportCredits, Shape, Links, CommandsOf, PeerCount, CreditSum;
    if c.completed > 0 {
      var p := Credits(c.connection, c.completed);
      ReportEffect(c);
      ReportLinks(c, h);
      CountsAppend(c.events, [p]);
      CountsOne(p);
      assert CommandsOf(c.events) + [] == CommandsOf(c.events);
    } else {
      ReportNothing(c);
    }
  }

  /** A poll keeps the invariant, and hands over the packet at the front. */
  lemma {:induction false} PollKeeps(c: Controller, h: Host, i: Input)
    requires Core(c, h) && Kept(c) && !c.inFlight && !c.cancelled
    ensures Inv(System(Poll(c, i).0, h, Poll(c, i).1))
  {
    hide *;
    var r := ReportCredits(PollPeer(c, i));
    PollPeerKeeps(c, h, i);
    ReportKeeps(PollPeer(c, i), h);
    PollDelivers(c, h, i);
    PollPeerGrows(c, i);
    PollGrows(c, i);
    PollPasses(c, h, i);
  }

  lemma {:induction false} PollPasses(c: Controller, h: Host, i: Input)
    requires Core(PollPeer(c, i), h) && Core(ReportCredits(PollPeer(c, i)), h) && !c.inFlight
    requires Grows(c, PollPeer(c, i)) && Grows(c, ReportCredits(PollPeer(c, i)))
    requires Delivering(System(Poll(c, i).0, h, Poll(c, i).1))
    ensures Inv(System(Poll(c, i).0, h, Poll(c, i).1))
  {
    hide PollPeer, ReportCredits, Core, Kept;
    CoreAnyway(h);
  }

  /** The delivery's own flags do not matter to the core. */
  lemma {:induction false} CoreAnyway(h: Host)
    ensures forall c :: Core(c, h) ==> Core(c.(readyPending := false, sendAvailable := true), h)
    ensures forall c, pending: bool :: Core(c, h) && (pending ==> c.commandPending) ==>
      Core(c.(inFlight := true, commandPending := pending), h)
  {
    hide Bounded, Shape, Links, Balanced;
    forall c | Core(c, h)
      ensures Core(c.(readyPending := false, sendAvailable := true), h)
    {
      CoreDepends(c, h, c.(readyPending := false, sendAvailable := true));
    }
    forall c, pending: bool | Core(c, h) && (pending ==> c.commandPending)
      ensures Core(c.(inFlight := true, commandPending := pending), h)
    {
      CoreDepends(c, h, c.(inFlight := true, commandPending := pending));
    }
  }

  lemma {:induction false} CoreDepends(c: Controller, h: Host, d: Controller)
    requires Core(c, h) && d.events == c.events && d.connection == c.connection && d.completed == c.completed
    requires d.lastHandle == c.lastHandle && (d.commandPending ==> c.commandPending)
    ensures Core(d, h)
  {
    LinksDepend(c, d, h);
    hide Shape, Links, PeerCount, CommandsOf, CreditSum;
  }

  // ----- The host accepts a packet -----

  lemma {:induction false} NoCreditsBehindLink(q: seq<Packet>, known: Option<nat>)
    requires q != [] && CreditsFirst(q, known) && LinkItem(q[0])
    ensures CreditSum(q) == 0 && forall i :: 0 <= i < |q| ==> !q[i].Credits?
  {
    assert forall i :: 0 <= i < |q| ==> !q[i].Credits?;
    NoneCounted(q);
  }

  lemma {:induction false} NoneCounted(q: seq<Packet>)
    requires forall i :: 0 <= i < |q| ==> !q[i].Credits?
    ensures CreditSum(q) == 0
  {
    if q != [] { NoneCounted(q[1..]); }
  }

  lemma {:induction false} PopQueue(q: seq<Packet>, known: Option<nat>, connection: nat)
    requires q != [] && CreditsFirst(q, known) && LinksInOrder(q, connection)
    ensures CreditsFirst(q[1..], known) && LinksInOrder(q[1..], connection)
    ensures forall i :: 0 <= i < |q[1..]| ==> q[1..][i] == q[i + 1]
    ensures !LinkItem(q[0]) ==> (NoLinkItem(q) <==> NoLinkItem(q[1..]))
    ensures LinkItem(q[0]) ==> !NoLinkItem(q) && forall other :: CreditsFirst(q[1..], other)
    ensures q[0].Connected? && !NoLinkItem(q[1..]) ==> q[0].handle != connection
  {
    TailCredits(q, known);
    var r := q[1..];
    if !LinkItem(q[0]) && NoLinkItem(r) {
      forall i | 0 <= i < |q| ensures !LinkItem(q[i]) { if i > 0 { assert q[i] == r[i - 1]; } }
    }
    if LinkItem(q[0]) { NoCreditsBehindLink(q, known); }
    if !NoLinkItem(r) {
      var k :| 0 <= k < |r| && LinkItem(r[k]);
      assert LinkItem(q[k + 1]);
    }
  }

  lemma {:induction false} PopLinks(c: Controller, h: Host)
    requires Links(c, h) && c.events != []
    ensures Links(Pop(c), HostAccepts(h, c.events[0]))
  {
    PopQueue(c.events, h.known, c.connection);
    PopHandles(c, h);
    hide CreditsFirst, LinksInOrder, NoLinkItem, HandlesKnown;
  }

  lemma {:induction false} PopHandles(c: Controller, h: Host)
    requires HandlesKnown(c, h) && c.events != []
    ensures HandlesKnown(Pop(c), HostAccepts(h, c.events[0]))
  {
    var r := c.events[1..];
    forall i | 0 <= i < |r| && LinkItem(r[i])
      ensures 0 < r[i].handle <= c.lastHandle
    {
      assert r[i] == c.events[i + 1];
    }
  }

  lemma {:induction false} PopShape(p: Packet, rest: seq<Packet>, commandOut: bool)
    requires FromCommand(p) && Shape([p] + rest, commandOut)
    ensures Shape(rest, if p.Completion? then false else commandOut)
  {
    var all := [p] + rest;
    assert all[0] == p && forall i :: 0 <= i < |rest| ==> all[i + 1] == rest[i];
  }

  lemma {:induction false} PopBalanceLink(c: Controller, h: Host)
    requires Links(c, h) && Balanced(c, h) && c.events != [] && LinkItem(c.events[0])
    ensures Balanced(Pop(c), HostAccepts(h, c.events[0]))
  {
    PopCounts(c.events);
    NoCreditsBehindLink(c.events, h.known);
    assert c.completed == 0 by { assert !NoLinkItem(c.events); }
    hide PeerCount, CommandsOf, CreditSum, Links;
  }

  lemma {:induction false} CreditsForKnown(q: seq<Packet>, known: Option<nat>)
    requires CreditsFirst(q, known) && q != [] && q[0].Credits?
    ensures known == Some(q[0].handle)
  {
  }

  lemma {:induction false} PopBalance(c: Controller, h: Host)
    requires Links(c, h) && Balanced(c, h) && c.events != []
    ensures Balanced(Pop(c), HostAccepts(h, c.events[0]))
  {
    hide PeerCount, CommandsOf, CreditSum, Links, CreditsFirst;
    if LinkItem(c.events[0]) {
      PopBalanceLink(c, h);
    } else {
      PopCounts(c.events);
      LinksCredits(c, h);
      if c.events[0].Credits? { CreditsForKnown(c.events, h.known); }
    }
  }

  lemma {:induction false} LinksCredits(c: Controller, h: Host)
    requires Links(c, h)
    ensures CreditsFirst(c.events, h.known)
  {
  }

  lemma {:induction false} PopCommands(q: seq<Packet>, commandOut: bool)
    requires q != [] && Shape(CommandsOf(q), commandOut)
    ensures Shape(CommandsOf(q[1..]), if q[0].Completion? then false else commandOut)
  {
    PopCounts(q);
    var rest := CommandsOf(q[1..]);
    if FromCommand(q[0]) {
      PopShape(q[0], rest, commandOut);
    } else {
      assert [] + rest == rest;
    }
  }

  lemma {:induction false} PopKeeps(c: Controller, h: Host)
    requires Core(c, h) && c.events != [] && (c.events[0].Completion? ==> !c.commandPending)
    ensures Core(Pop(c), HostAccepts(h, c.events[0]))
  {
    PopCounts(c.events);
    PopLinks(c, h);
    PopBalance(c, h);
    PopCommands(c.events, h.commandOut);
    hide Shape, Links, Balanced, PeerCount, CommandsOf, CreditSum;
  }

  // ----- The host's calls -----

  /** What a command queues: the completion, and at most one event of its own. */
  predicate CommandPackets(more: seq<Packet>) {
    && 1 <= |more| <= 2
    && more[0].Completion?
    && (|more| == 2 ==> FromCommand(more[1]) && !more[1].Completion?)
  }

  lemma {:induction false} CommandShape(before: seq<Packet>, more: seq<Packet>)
    requires Shape(before, false) && CommandPackets(more)
    ensures Shape(before + more, true)
  {
  }

  lemma {:induction false} CommandsOfAll(more: seq<Packet>)
    requires CommandPackets(more)
    ensures CommandsOf(more) == more
    ensures PeerCount(more) == 0
    ensures CreditSum(more) == 0
  {
    if |more| == 2 {
      CountsOne(more[1]);
      assert more[1..] == [more[1]] && [more[0]] + [more[1]] == more;
    } else {
      assert more[1..] == [] && more == [more[0]];
    }
  }

  lemma {:induction false} CommandCounts(q: seq<Packet>, more: seq<Packet>)
    requires Shape(CommandsOf(q), false) && CommandPackets(more)
    ensures Shape(CommandsOf(q + more), true)
    ensures PeerCount(q + more) == PeerCount(q)
    ensures CreditSum(q + more) == CreditSum(q)
  {
    CountsAppend(q, more);
    CommandsOfAll(more);
    CommandShape(CommandsOf(q), more);
  }

  /** Putting the completion in afterwards is queueing it first. */
  lemma {:induction false} CompletionFirst(c: Controller, e: Effect)
    ensures SendCommand(c, e).events == CommandEvents(QueueAll(c, [Completion]), e).events
    ensures SendCommand(c, e).events == c.events + ([Completion] + CommandPacketOf(c, e))
    ensures CommandPackets([Completion] + CommandPacketOf(c, e))
  {
    hide *;
    var more := CompletionComesFirst(c, e);
    CommandPacket(c, e);
    CommandPacket(QueueAll(c, [Completion]), e);
    QueuedFirst(c, e);
    EndsAlike(c.events, more, CommandPacketOf(c, e));
    assert c.events + [Completion] + more == c.events + ([Completion] + more);
  }

  lemma {:induction false} QueuedFirst(c: Controller, e: Effect)
    ensures QueueAll(c, [Completion]).events == c.events + [Completion]
    ensures CommandPacketOf(QueueAll(c, [Completion]), e) == CommandPacketOf(c, e)
  {
  }

  function CommandPacketOf(c: Controller, e: Effect): seq<Packet> {
    match e
    case Silent => []
    case Reports(masked) => if masked then [] else [CommandEvent]
    case Disconnects(masked) => if masked || c.connection == 0 then [] else [Disconnected(c.connection, true)]
  }

  lemma {:induction false} CommandPacket(c: Controller, e: Effect)
    ensures CommandEvents(c, e).events == c.events + CommandPacketOf(c, e)
    ensures CommandPackets([Completion] + CommandPacketOf(c, e))
  {
    hide Drop;
    assert c.events + [] == c.events;
    match e {
      case Silent =>
      case Reports(_) =>
      case Disconnects(masked) => DropPacket(c, masked);
    }
  }

  lemma {:induction false} DropPacket(c: Controller, masked: bool)
    ensures Drop(c, true, masked).events ==
            c.events + if masked || c.connection == 0 then [] else [Disconnected(c.connection, true)]
  {
    assert c.events + [] == c.events;
  }

  lemma {:induction false} CommandEventsLink(c: Controller, e: Effect)
    ensures var d := CommandEvents(c, e);
      && d.lastHandle == c.lastHandle
      && d.connection == (if e.Disconnects? then 0 else c.connection)
      && d.completed == (if e.Disconnects? && c.connection != 0 then 0 else c.completed)
  {
    hide Drop;
    match e {
      case Silent =>
      case Reports(_) =>
      case Disconnects(masked) => DropsLink(c, masked);
    }
  }

  lemma {:induction false} DropsLink(c: Controller, masked: bool)
    ensures var d := Drop(c, true, masked);
      && d.lastHandle == c.lastHandle
      && d.connection == 0
      && d.completed == if c.connection != 0 then 0 else c.completed
  {
  }

  lemma {:induction false} SendCommandLink(c: Controller, e: Effect)
    ensures var d, f := SendCommand(c, e), CommandEvents(QueueAll(c, [Completion]), e);
      && d.connection == f.connection == (if e.Disconnects? then 0 else c.connection)
      && d.completed == f.completed <= c.completed
      && d.lastHandle == c.lastHandle == f.lastHandle
  {
    hide CommandEvents;
    CommandEventsLink(c, e);
    CommandEventsLink(QueueAll(c, [Completion]), e);
  }

  lemma {:induction false} EndsAlike(q: seq<Packet>, a: seq<Packet>, b: seq<Packet>)
    ensures q + a == q + b ==> a == b
  {
    assert (q + a)[|q|..] == a && (q + b)[|q|..] == b;
  }

  lemma {:induction false} CommandEventsLinks(c: Controller, h: Host, e: Effect)
    requires Links(c, h)
    ensures Links(CommandEvents(c, e), h)
  {
    hide Links, Drop;
    match e {
      case Silent =>
      case Reports(masked) => PlainLinks(c, h, [CommandEvent]);
      case Disconnects(masked) =>
        if c.connection != 0 { DropLinks(c, h, true, masked); } else { DropNothing(c, masked); }
    }
  }

  lemma {:induction false} DropNothing(c: Controller, masked: bool)
    requires c.connection == 0
    ensures Drop(c, true, masked) == c
  {
  }

  lemma {:induction false} LinksDepend(c: Controller, d: Controller, h: Host)
    requires Links(c, h) && d.events == c.events && d.connection == c.connection && d.completed == c.completed
    requires d.lastHandle == c.lastHandle
    ensures Links(d, h)
  {
  }

  lemma {:induction false} CommandLinks(c: Controller, h: Host, e: Effect)
    requires Links(c, h)
    ensures Links(SendCommand(c, e), h.(commandOut := true))
  {
    hide *;
    PlainLinks(c, h, [Completion]) by { PlainCompletion(); }
    CommandEventsLinks(QueueAll(c, [Completion]), h, e);
    CompletionFirst(c, e);
    SendCommandLink(c, e);
    LinksDepend(CommandEvents(QueueAll(c, [Completion]), e), SendCommand(c, e), h);
    LinksOfHost(SendCommand(c, e), h);
  }

  lemma {:induction false} PlainCompletion()
    ensures Plain([Completion])
  {
  }

  lemma {:induction false} LinksOfHost(c: Controller, h: Host)
    ensures Links(c, h) ==> Links(c, h.(commandOut := true))
  {
  }

  lemma {:induction false} CommandBounded(c: Controller, e: Effect)
    requires Bounded(c) && PeerCount(SendCommand(c, e).events) == PeerCount(c.events)
    ensures Bounded(SendCommand(c, e))
  {
    hide SendCommand, PeerCount;
    SendCommandLink(c, e);
  }

  lemma {:induction false} CommandBalance(c: Controller, h: Host, e: Effect)
    requires Balanced(c, h) && CreditSum(SendCommand(c, e).events) == CreditSum(c.events)
    ensures Balanced(SendCommand(c, e), h.(commandOut := true))
  {
    hide SendCommand, CreditSum;
    SendCommandLink(c, e);
  }

  /** A command, sent by a host that has had the completion of the one before. */
  lemma {:induction false} CommandKeeps(c: Controller, h: Host, e: Effect)
    requires Core(c, h) && !h.commandOut
    ensures Core(SendCommand(c, e), h.(commandOut := true))
  {
    hide SendCommand, Shape, Links, Balanced, Bounded, CommandsOf, PeerCount, CreditSum, CommandPackets;
    CompletionFirst(c, e);
    CommandCounts(c.events, [Completion] + CommandPacketOf(c, e));
    CommandBounded(c, e);
    CommandBalance(c, h, e);
    CommandLinks(c, h, e);
  }

  /** An ACL packet on the handle the host knows, which need not be the present one. */
  lemma {:induction false} DataKeeps(c: Controller, h: Host)
    requires Core(c, h) && h.known.Some? && h.unanswered < CREDITS
    ensures Core(SendData(c, h.known.value), h.(unanswered := h.unanswered + 1))
    ensures SendData(c, h.known.value).completed <= CREDITS
  {
    hide Shape, Links, Balanced, SendData, CommandsOf, PeerCount, CreditSum;
    DataCounts(c, h.known.value);
    DataFlags(c, h.known.value);
    DataLinks(c, h);
    DataBalance(c, h);
  }

  lemma {:induction false} DataFlags(c: Controller, handle: nat)
    ensures SendData(c, handle).commandPending == c.commandPending
    ensures SendData(c, handle).lastHandle == c.lastHandle
  {
  }

  lemma {:induction false} DataLinks(c: Controller, h: Host)
    requires Links(c, h) && h.known.Some?
    ensures Links(SendData(c, h.known.value), h.(unanswered := h.unanswered + 1))
  {
    hide CreditsFirst, LinksInOrder, NoLinkItem, HandlesKnown, SendData;
    DataCounts(c, h.known.value);
    DataFlags(c, h.known.value);
    HandlesDepend(c, h, SendData(c, h.known.value), h.(unanswered := h.unanswered + 1));
  }

  lemma {:induction false} HandlesDepend(c: Controller, h: Host, d: Controller, g: Host)
    requires HandlesKnown(c, h) && d.events == c.events && d.connection == c.connection
    requires d.lastHandle == c.lastHandle && g.known == h.known
    ensures HandlesKnown(d, g)
  {
  }

  lemma {:induction false} DataBalance(c: Controller, h: Host)
    requires Balanced(c, h) && h.known.Some? && h.unanswered < CREDITS
    ensures Balanced(SendData(c, h.known.value), h.(unanswered := h.unanswered + 1))
    ensures SendData(c, h.known.value).completed <= CREDITS
  {
    hide CreditSum, SendData;
    DataCounts(c, h.known.value);
  }

  // ----- Whole runs -----

  lemma {:induction false} EmptyCore(c: Controller)
    requires c.events == [] && c.connection == 0 && c.completed == 0 && !c.commandPending
    ensures Core(c, Host(None, 0, false))
  {
  }

  lemma {:induction false} DisableKeeps(s: System)
    requires Inv(s)
    ensures Inv(Step(s, Disabling))
  {
    EmptyCore(Disable(s.controller));
    StepDelivers(s, Disabling);
  }

  lemma {:induction false} IdleCore(c: Controller, h: Host)
    requires Core(c, h) && Kept(c)
    ensures Core(Idle(c), h) && Kept(Idle(c))
  {
    IdleKept(c);
    hide Kept;
    CoreDepends(c, h, Idle(c));
  }

  lemma {:induction false} ReturnKeeps(s: System, took: bool, i: Input)
    requires Inv(s) && Possible(s.controller, Return(took, i))
    ensures Inv(Step(s, Return(took, i)))
  {
    var c, h := s.controller, s.host;
    hide Core, Poll, Kept;
    if c.cancelled {
      IdleCore(c, h);
      PollKeeps(Idle(c), h, i);
    } else if took {
      PopKeeps(c, h);
      PopKept(c);
      IdleCore(Pop(c), HostAccepts(h, c.events[0]));
      PollKeeps(Idle(Pop(c)), HostAccepts(h, c.events[0]), i);
    } else {
      IdleCore(c, h);
    }
  }

  lemma {:induction false} FlagsKeep(s: System, a: Action)
    requires Inv(s) && Possible(s.controller, a) && (a.Enable? || a.Register?)
    ensures Inv(Step(s, a))
  {
    StepDelivers(s, a);
    hide Core, Delivering;
    CoreDepends(s.controller, s.host, Step(s, a).controller);
  }

  lemma {:induction false} CommandStep(s: System, e: Effect)
    requires Inv(s) && Possible(s.controller, Command(e)) && Disciplined(s.host, Command(e))
    ensures Inv(Step(s, Command(e)))
  {
    StepDelivers(s, Command(e));
    hide Core, SendCommand, CommandPacketOf, Kept;
    CommandKeeps(s.controller, s.host, e);
    CommandKeepsFlags(s.controller, e);
    CompletionFirst(s.controller, e);
    if s.controller.inFlight && !s.controller.cancelled {
      FrontIsNoCompletion(s);
      assert SendCommand(s.controller, e).events[0] == s.controller.events[0];
    }
  }

  /** With no command out there is no completion to deliver. */
  lemma {:induction false} FrontIsNoCompletion(s: System)
    requires Inv(s) && !s.host.commandOut && s.controller.events != []
    ensures !s.controller.events[0].Completion?
  {
    PopCounts(s.controller.events);
    hide Links, Bounded, Balanced, Delivering, CommandsOf;
  }

  lemma {:induction false} DataStep(s: System, handle: nat)
    requires Inv(s) && Possible(s.controller, AclOut(handle)) && Disciplined(s.host, AclOut(handle))
    ensures Inv(Step(s, AclOut(handle)))
  {
    StepDelivers(s, AclOut(handle));
    hide Core, SendData, Kept;
    DataKeeps(s.controller, s.host);
    DataCounts(s.controller, handle);
    DataFlags(s.controller, handle);
  }

  lemma {:induction false} StepKeeps(s: System, a: Action)
    requires Inv(s) && Possible(s.controller, a) && Disciplined(s.host, a)
    ensures Inv(Step(s, a))
  {
    var c, h := s.controller, s.host;
    hide Core, HandedOver, Disciplined;
    match a {
      case Disabling => DisableKeeps(s);
      case Command(e) => CommandStep(s, e);
      case AclOut(handle) => DataStep(s, handle);
      case Wake(i) => PollKeeps(c, h, i);
      case Return(took, i) => ReturnKeeps(s, took, i);
      case _ => FlagsKeep(s, a);
    }
  }

  lemma {:induction false} RunKeeps(s: System, actions: seq<Action>, t: System)
    requires Inv(s) && DisciplinedRun(s, actions, t)
    ensures Inv(t)
    decreases |actions|
  {
    hide Inv, Step, Possible;
    if actions != [] {
      StepKeeps(s, actions[0]);
      RunKeeps(Step(s, actions[0]), actions[1..], t);
    }
  }

  lemma {:induction false} Reached(actions: seq<Action>, t: System)
    requires DisciplinedRun(Start(), actions, t)
    ensures Inv(t)
  {
    hide DisciplinedRun;
    EmptyCore(Start().controller);
    RunKeeps(Start(), actions, t);
  }

  /**
    The queue never reaches its capacity, even while the host rejects every delivery: not between steps, and not at
    any point of a poll where a packet is added. Nor does the controller run out of credits for ACL packets or commands.
   */
  lemma {:induction false} QueueNeverFull(actions: seq<Action>, s: System, i: Input)
    requires DisciplinedRun(Start(), actions, s)
    ensures |s.controller.events| <= 44 < CAPACITY
    ensures |TakeMessages(s.controller, i.messages).events| <= 44
    ensures |PollPeer(s.controller, i).events| <= 44
    ensures |ReportCredits(PollPeer(s.controller, i)).events| <= 44
    ensures forall handle :: Disciplined(s.host, AclOut(handle)) ==> SendData(s.controller, handle).completed <= CREDITS
    ensures !s.host.commandOut ==> !s.controller.commandPending
  {
    hide DisciplinedRun, TakeMessages, PollPeer, ReportCredits, Shape, Bounded, Links, Balanced, SendData, Delivering;
    Reached(actions, s);
    var c, h := s.controller, s.host;
    NeverFull(c, h);
    MessagesKeep(c, h, i.messages);
    NeverFull(TakeMessages(c, i.messages), h);
    PollPeerKeeps(c, h, i);
    NeverFull(PollPeer(c, i), h);
    ReportKeeps(PollPeer(c, i), h);
    NeverFull(ReportCredits(PollPeer(c, i)), h);
    if h.known.Some? && h.unanswered < CREDITS { DataKeeps(c, h); }
  }

  /** The host's count covers what is still to be reported and the reports that are on their way. */
  lemma {:induction false} CreditsCovered(actions: seq<Action>, s: System)
    requires DisciplinedRun(Start(), actions, s)
    ensures CreditSum(s.controller.events) + s.controller.completed <= s.host.unanswered <= CREDITS
  {
    hide DisciplinedRun, Shape, Bounded, Links, Delivering;
    Reached(actions, s);
  }
}
