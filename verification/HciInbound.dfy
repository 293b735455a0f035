/**
  What the host is told: a ledger of what happened at the controller, written from its inputs alone, and how a host
  that puts the packets of the queue together again reads exactly that ledger.
 */
module HciInbound {
  import opened Bits
  import opened L2cap
  import opened HciQueue
  import opened HciDelivery

  // ----- What happened -----

  datatype Note =
    | Up(handle: nat)
    | Down(handle: nat, byCommand: bool)
    | Heard(handle: nat, sdu: Bytes)
    | KeyAsked
    | Freed(handle: nat, count: nat)
    | Done
    | Reported

  /** The link that is up, 0 for none, the last handle given out, and the packets of the host to be acknowledged. */
  datatype Ledger = Ledger(up: nat, last: nat, owed: nat, log: seq<Note>)

  function Write(l: Ledger, n: Note, masked: bool): Ledger {
    if masked then l else l.(log := l.log + [n])
  }

  function LinkEnds(l: Ledger, byCommand: bool, masked: bool): Ledger {
    if l.up == 0 then l else Write(l, Down(l.up, byCommand), masked).(up := 0, owed := 0)
  }

  /** A well-formed SDU on the link that is up is to be heard on it, whole. */
  function Hears(l: Ledger, enabled: bool, m: Message): Ledger {
    match m
    case Connect(acceptable, masked) =>
      if acceptable && l.up == 0 && enabled then Write(l.(up := l.last + 1, last := l.last + 1), Up(l.last + 1), masked)
      else l
    case Disconnect(masked) => LinkEnds(l, false, masked)
    case Sdu(data) => if l.up != 0 && SduOk(data) then Write(l, Heard(l.up, data), false) else l
    case Encrypt(masked) => if l.up != 0 then Write(l, KeyAsked, masked) else l
    case Other => l
  }

  /** Messages are taken while fewer than 24 packets wait. */
  function HearsAll(l: Ledger, c: Controller, messages: seq<Message>): Ledger
    decreases |messages|
  {
    if messages == [] || |c.events| >= 24 then l
    else HearsAll(Hears(l, c.enabled, messages[0]), TakeMessage(c, messages[0]), messages[1..])
  }

  /** A poll that is to deliver acknowledges first. */
  function Polls(l: Ledger, c: Controller, i: Input): Ledger {
    var heard := HearsAll(l, c, i.messages);
    var ended := if i.lost then LinkEnds(heard, false, i.masked) else heard;
    if c.enabled && c.registered && !c.readyPending && ended.owed > 0
    then Write(ended, Freed(ended.up, ended.owed), false).(owed := 0)
    else ended
  }

  function Keeps(l: Ledger, c: Controller, a: Action): Ledger
    requires Possible(c, a)
  {
    match a
    case Enable => l
    case Register => l
    case Disabling => Ledger(0, l.last, 0, [])
    case Command(Silent) => Write(l, Done, false)
    case Command(Reports(masked)) => Write(Write(l, Done, false), Note.Reported, masked)
    case Command(Disconnects(masked)) => LinkEnds(Write(l, Done, false), true, masked)
    case AclOut(handle) => if l.up != 0 && handle == l.up then l.(owed := l.owed + 1) else l
    case Wake(i) => Polls(l, c, i)
    case Return(took, i) =>
      if c.cancelled then Polls(l, Idle(c), i) else if took then Polls(l, Pop(Idle(c)), i) else l
  }

  /** The ledger at the end of a run. */
  ghost function Kept(l: Ledger, s: System, actions: seq<Action>, t: System): Ledger
    requires Run(s, actions, t)
    decreases |actions|
  {
    if actions == [] then l else Kept(Keeps(l, s.controller, actions[0]), Step(s, actions[0]), actions[1..], t)
  }

  // ----- What the host makes of the packets -----

  datatype Reading = Reading(partial: Bytes, notes: seq<Note>)

  /** Data is put together as in `L2cap.HostTakes`; a new or ended link starts afresh. */
  function Reads(r: Reading, p: Packet): Reading {
    match p
    case Connected(handle) => Reading([], r.notes + [Up(handle)])
    case Disconnected(handle, byCommand) => Reading([], r.notes + [Down(handle, byCommand)])
    case Data(acl) =>
      var t := HostTakes(Assembled(r.partial, []), acl);
      Reading(t.partial, if t.sdus != [] then r.notes + [Heard(acl.handle, t.sdus[0])] else r.notes)
    case EncryptionRequest => r.(notes := r.notes + [KeyAsked])
    case Credits(handle, count) => r.(notes := r.notes + [Freed(handle, count)])
    case Completion => r.(notes := r.notes + [Done])
    case CommandEvent => r.(notes := r.notes + [Note.Reported])
  }

  function ReadsAll(r: Reading, q: seq<Packet>): Reading
    decreases |q|
  {
    if q == [] then r else ReadsAll(Reads(r, q[0]), q[1..])
  }

  const BLANK: Reading := Reading([], [])

  lemma {:induction false} ReadsAppend(r: Reading, q: seq<Packet>, more: seq<Packet>)
    ensures ReadsAll(r, q + more) == ReadsAll(ReadsAll(r, q), more)
    decreases |q|
  {
    hide Reads;
    if q == [] {
      assert q + more == more;
    } else {
      assert (q + more)[0] == q[0] && (q + more)[1..] == q[1..] + more;
      ReadsAppend(Reads(r, q[0]), q[1..], more);
    }
  }

  lemma {:induction false} ReadsOne(r: Reading, p: Packet)
    ensures ReadsAll(r, [p]) == Reads(r, p)
    ensures ReadsAll(r, []) == r
  {
    hide Reads;
    assert [p][1..] == [];
  }

  lemma {:induction false} ReadingGrows(r: Reading, q: seq<Packet>)
    ensures r.notes <= ReadsAll(r, q).notes
    decreases |q|
  {
    if q != [] {
      OneGrows(r, q[0]);
      hide Reads;
      ReadingGrows(Reads(r, q[0]), q[1..]);
    }
  }

  lemma {:induction false} OneGrows(r: Reading, p: Packet)
    ensures r.notes <= Reads(r, p).notes
  {
    hide HostTakes;
  }

  lemma {:induction false} FragmentsRead(r: Reading, handle: nat, sdu: Bytes, offset: nat)
    requires SduOk(sdu) && offset < |sdu| && (offset > 0 ==> r.partial == sdu[..offset])
    ensures ReadsAll(r, DataPackets(Fragments(handle, sdu, offset))) == Reading([], r.notes + [Heard(handle, sdu)])
    decreases |sdu| - offset
  {
    var end := offset + FragmentSize(sdu, offset);
    var acl := Acl(handle, if offset == 0 then STARTS else CONTINUES, sdu[offset..end]);
    var rest := DataPackets(Fragments(handle, sdu, end));
    NextFragment(handle, sdu, offset);
    FragmentTaken(handle, sdu, offset, Assembled(r.partial, []));
    assert [] + [sdu] == [sdu];
    hide Fragments, SduOk, HostTakes;
    assert DataPackets(Fragments(handle, sdu, offset)) == [Data(acl)] + rest;
    var next := Reads(r, Data(acl));
    assert ([Data(acl)] + rest)[1..] == rest;
    if end == |sdu| {
      NextFragment(handle, sdu, end);
    } else {
      FragmentsRead(next, handle, sdu, end);
    }
  }

  // ----- The queue and the ledger -----

  /** What a host reads out of all that was queued is the ledger, with no SDU left half read. */
  predicate Agrees(l: Ledger, c: Controller) {
    && ReadsAll(BLANK, c.queued) == Reading([], l.log)
    && l.up == c.connection
    && l.last == c.lastHandle
    && (c.connection != 0 ==> l.owed == c.completed)
    && (c.connection == 0 ==> l.owed == 0 == c.completed)
  }

  lemma {:induction false} QueuedNotes(c: Controller, l: Ledger, p: Packet, n: Note, masked: bool)
    requires ReadsAll(BLANK, c.queued) == Reading([], l.log) && !p.Data?
    requires Reads(Reading([], l.log), p) == Reading([], l.log + [n])
    ensures ReadsAll(BLANK, Queue(c, p, masked).queued) == Reading([], Write(l, n, masked).log)
  {
    hide Reads;
    ReadsAppend(BLANK, c.queued, [p]);
    ReadsOne(Reading([], l.log), p);
  }

  /** What neither a message nor the end of a link touches. */
  predicate SameFlags(c: Controller, d: Controller) {
    d.enabled == c.enabled && d.registered == c.registered && d.readyPending == c.readyPending
  }

  lemma {:induction false} QueueKeeps(c: Controller, p: Packet, masked: bool)
    ensures var d := Queue(c, p, masked);
      && SameFlags(c, d)
      && d.connection == c.connection
      && d.lastHandle == c.lastHandle
      && d.completed == c.completed
  {
  }

  lemma {:induction false} DropAgrees(l: Ledger, c: Controller, byCommand: bool, masked: bool)
    requires Agrees(l, c)
    ensures Agrees(LinkEnds(l, byCommand, masked), Drop(c, byCommand, masked))
    ensures SameFlags(c, Drop(c, byCommand, masked))
  {
    hide ReadsAll;
    if c.connection != 0 {
      var p := Disconnected(c.connection, byCommand);
      QueuedNotes(c, l, p, Down(c.connection, byCommand), masked);
      QueueKeeps(c, p, masked);
      hide Queue;
    }
  }

  lemma {:induction false} ConnectAgrees(l: Ledger, c: Controller, masked: bool)
    requires Agrees(l, c) && c.connection == 0
    ensures var n := c.lastHandle + 1;
      Agrees(Write(l.(up := n, last := n), Up(n), masked),
        Queue(c.(connection := n, lastHandle := n, reported := 0, sent := 0), Connected(n), masked))
    ensures var n := c.lastHandle + 1;
      SameFlags(c, Queue(c.(connection := n, lastHandle := n, reported := 0, sent := 0), Connected(n), masked))
  {
    hide ReadsAll;
    var n := c.lastHandle + 1;
    var d := c.(connection := n, lastHandle := n, reported := 0, sent := 0);
    QueuedNotes(d, l.(up := n, last := n), Connected(n), Up(n), masked);
    QueueKeeps(d, Connected(n), masked);
    hide Queue;
  }

  /** An SDU is queued whole, on the link that is up. */
  lemma {:induction false} SduAgrees(l: Ledger, c: Controller, data: Bytes)
    requires Agrees(l, c) && c.connection != 0 && SduOk(data)
    ensures Agrees(Write(l, Heard(c.connection, data), false),
      QueueAll(c, DataPackets(Fragments(c.connection, data, 0))))
    ensures SameFlags(c, QueueAll(c, DataPackets(Fragments(c.connection, data, 0))))
  {
    var packets := DataPackets(Fragments(c.connection, data, 0));
    ReadsAppend(BLANK, c.queued, packets);
    FragmentsRead(Reading([], l.log), c.connection, data, 0);
    hide ReadsAll, Fragments, DataPackets;
  }

  lemma {:induction false} KeyAgrees(l: Ledger, c: Controller, masked: bool)
    requires Agrees(l, c)
    ensures Agrees(Write(l, KeyAsked, masked), Queue(c, EncryptionRequest, masked))
    ensures SameFlags(c, Queue(c, EncryptionRequest, masked))
  {
    hide ReadsAll;
    QueuedNotes(c, l, EncryptionRequest, KeyAsked, masked);
    QueueKeeps(c, EncryptionRequest, masked);
    hide Queue;
  }

  lemma {:induction false} MessageAgrees(l: Ledger, c: Controller, m: Message)
    requires Agrees(l, c)
    ensures Agrees(Hears(l, c.enabled, m), TakeMessage(c, m)) && SameFlags(c, TakeMessage(c, m))
  {
    LinkAgrees(l, c);
    hide Agrees, Queue, QueueAll, Drop, LinkEnds, Write, Fragments, DataPackets, SduOk;
    match m {
      case Connect(_, masked) => if c.connection == 0 { ConnectAgrees(l, c, masked); }
      case Disconnect(masked) => DropAgrees(l, c, false, masked);
      case Sdu(data) => if c.connection != 0 && SduOk(data) { SduAgrees(l, c, data); }
      case Encrypt(masked) => KeyAgrees(l, c, masked);
      case Other =>
    }
  }

  lemma {:induction false} LinkAgrees(l: Ledger, c: Controller)
    requires Agrees(l, c)
    ensures l.up == c.connection && l.last == c.lastHandle
    ensures l.owed == c.completed
  {
  }

  lemma {:induction false} MessagesAgree(l: Ledger, c: Controller, messages: seq<Message>)
    requires Agrees(l, c)
    ensures Agrees(HearsAll(l, c, messages), TakeMessages(c, messages)) && SameFlags(c, TakeMessages(c, messages))
    decreases |messages|
  {
    hide Agrees, TakeMessage, Hears;
    if messages != [] && |c.events| < 24 {
      MessageAgrees(l, c, messages[0]);
      MessagesAgree(Hears(l, c.enabled, messages[0]), TakeMessage(c, messages[0]), messages[1..]);
    }
  }

  lemma {:induction false} PollAgrees(l: Ledger, c: Controller, i: Input)
    requires Agrees(l, c)
    ensures Agrees(Polls(l, c, i), Poll(c, i).0)
  {
    hide Agrees, TakeMessages, HearsAll, Drop, LinkEnds, ReportCredits;
    var heard, taken := HearsAll(l, c, i.messages), TakeMessages(c, i.messages);
    MessagesAgree(l, c, i.messages);
    if i.lost { DropAgrees(heard, taken, false, i.masked); }
    var ended, polled := if i.lost then LinkEnds(heard, false, i.masked) else heard, PollPeer(c, i);
    LinkAgrees(ended, polled);
    ReportAgrees(ended, polled);
    PollEffect(c, i);
    hide Poll, PollPeer;
    var r := ReportCredits(polled);
    FlagsAgree(ended, polled, polled.(readyPending := false, sendAvailable := true));
    var reported := if ended.owed == 0 then ended else Write(ended, Freed(ended.up, ended.owed), false).(owed := 0);
    if SameLink(r, Poll(c, i).0) { FlagsAgree(reported, r, Poll(c, i).0); }
  }

  /** Which of its steps a poll takes. */
  lemma {:induction false} PollEffect(c: Controller, i: Input)
    ensures var polled, d := PollPeer(c, i), Poll(c, i).0;
      if !polled.enabled || !polled.registered then d == polled
      else if polled.readyPending then d == polled.(readyPending := false, sendAvailable := true)
      else SameLink(ReportCredits(polled), d)
  {
    hide PollPeer, ReportCredits;
  }

  predicate SameLink(c: Controller, d: Controller) {
    && d.queued == c.queued
    && d.connection == c.connection
    && d.lastHandle == c.lastHandle
    && d.completed == c.completed
  }

  lemma {:induction false} FlagsAgree(l: Ledger, c: Controller, d: Controller)
    requires SameLink(c, d)
    ensures Agrees(l, c) ==> Agrees(l, d)
  {
    hide ReadsAll;
  }

  lemma {:induction false} ReportAgrees(l: Ledger, c: Controller)
    requires Agrees(l, c)
    ensures Agrees(if l.owed == 0 then l else Write(l, Freed(l.up, l.owed), false).(owed := 0), ReportCredits(c))
  {
    hide ReadsAll;
    if c.completed != 0 {
      var p := Credits(c.connection, c.completed);
      QueuedNotes(c, l, p, Freed(c.connection, c.completed), false);
      QueueKeeps(c, p, false);
      hide Queue;
    }
  }

  /** The effect of a command does not depend on what was queued before. */
  lemma {:induction false} EffectOnQueue(c: Controller, d: Controller, e: Effect, more: seq<Packet>)
    requires d == c.(queued := d.queued) && CommandEvents(c, e).events == c.events + more
    ensures CommandEvents(d, e).queued == d.queued + more
    ensures CommandEvents(d, e).connection == CommandEvents(c, e).connection
    ensures CommandEvents(d, e).lastHandle == CommandEvents(c, e).lastHandle
    ensures CommandEvents(d, e).completed == CommandEvents(c, e).completed
  {
    hide Queue, Drop;
    match e {
      case Silent => assert c.events + [] == c.events && d.queued + [] == d.queued;
      case Reports(masked) => QueuedBehind(c, d, CommandEvent, masked, more);
      case Disconnects(masked) => DroppedBehind(c, d, masked, more);
    }
  }

  lemma {:induction false} QueuedBehind(c: Controller, d: Controller, p: Packet, masked: bool, more: seq<Packet>)
    requires d == c.(queued := d.queued) && Queue(c, p, masked).events == c.events + more
    ensures var e := Queue(d, p, masked);
      && e.queued == d.queued + more
      && e.connection == c.connection
      && e.lastHandle == c.lastHandle
      && e.completed == c.completed
    ensures SameButQueued(Queue(c, p, masked), Queue(d, p, masked))
  {
    assert c.events + [] == c.events && d.queued + [] == d.queued;
    assert more == (c.events + more)[|c.events|..];
    assert [p] == (c.events + [p])[|c.events|..];
  }

  predicate SameButQueued(c: Controller, d: Controller) {
    d.connection == c.connection && d.lastHandle == c.lastHandle && d.completed == c.completed
  }

  lemma {:induction false} DroppedBehind(c: Controller, d: Controller, masked: bool, more: seq<Packet>)
    requires d == c.(queued := d.queued) && Drop(c, true, masked).events == c.events + more
    ensures Drop(d, true, masked).queued == d.queued + more
    ensures SameButQueued(Drop(c, true, masked), Drop(d, true, masked))
  {
    if c.connection == 0 {
      assert more == (c.events + more)[|c.events|..];
      assert d.queued + [] == d.queued;
    } else {
      QueuedBehind(c, d, Disconnected(c.connection, true), masked, more);
      hide Queue;
    }
  }

  lemma {:induction false} CompletionAgrees(l: Ledger, c: Controller)
    requires Agrees(l, c)
    ensures Agrees(Write(l, Done, false), c.(queued := c.queued + [Completion]))
  {
    hide ReadsAll;
    QueuedNotes(c, l, Completion, Done, false);
  }

  lemma {:induction false} EventAgrees(l: Ledger, c: Controller, masked: bool)
    requires Agrees(l, c)
    ensures Agrees(Write(l, Note.Reported, masked), Queue(c, CommandEvent, masked))
  {
    hide ReadsAll;
    QueuedNotes(c, l, CommandEvent, Note.Reported, masked);
    QueueKeeps(c, CommandEvent, masked);
    hide Queue;
  }

  /** The completion is read before what the command itself reports. */
  lemma {:induction false} CommandAgrees(l: Ledger, c: Controller, e: Effect)
    requires Agrees(l, c) && Possible(c, Command(e))
    ensures Agrees(Keeps(l, c, Command(e)), SendCommand(c, e))
  {
    var more := CompletionComesFirst(c, e);
    var first, d := Write(l, Done, false), c.(queued := c.queued + [Completion]);
    CompletionAgrees(l, c);
    EffectOnQueue(c, d, e, more);
    hide Agrees, Queue, Drop;
    match e {
      case Silent =>
      case Reports(masked) => EventAgrees(first, d, masked);
      case Disconnects(masked) => DropAgrees(first, d, true, masked);
    }
    assert Agrees(Keeps(l, c, Command(e)), CommandEvents(d, e));
    CommandSameLink(c, d, e, more);
    hide Keeps, SendCommand, CommandEvents;
    FlagsAgree(Keeps(l, c, Command(e)), CommandEvents(d, e), SendCommand(c, e));
  }

  lemma {:induction false} CommandSameLink(c: Controller, d: Controller, e: Effect, more: seq<Packet>)
    requires d == c.(queued := c.queued + [Completion])
    requires CommandEvents(d, e).queued == d.queued + more
    requires CommandEvents(d, e).connection == CommandEvents(c, e).connection
    requires CommandEvents(d, e).lastHandle == CommandEvents(c, e).lastHandle
    requires CommandEvents(d, e).completed == CommandEvents(c, e).completed
    requires SendCommand(c, e).queued == c.queued + ([Completion] + more)
    ensures SameLink(CommandEvents(d, e), SendCommand(c, e))
  {
    hide CommandEvents;
    assert c.queued + ([Completion] + more) == d.queued + more;
  }

  lemma {:induction false} AclAgrees(l: Ledger, c: Controller, handle: nat)
    requires Agrees(l, c) && Possible(c, AclOut(handle))
    ensures Agrees(Keeps(l, c, AclOut(handle)), SendData(c, handle))
  {
    hide ReadsAll;
  }

  lemma {:induction false} DisableAgrees(l: Ledger, c: Controller)
    requires Agrees(l, c)
    ensures Agrees(Ledger(0, l.last, 0, []), Disable(c))
  {
    ReadsOne(BLANK, Completion);
    hide ReadsAll;
  }

  lemma {:induction false} ReturnAgrees(l: Ledger, c: Controller, took: bool, i: Input)
    requires Agrees(l, c) && Possible(c, Return(took, i))
    ensures Agrees(Keeps(l, c, Return(took, i)), Returned(c, took, i).0)
  {
    hide Agrees, Poll, Polls;
    FlagsAgree(l, c, Idle(c));
    if c.cancelled {
      PollAgrees(l, Idle(c), i);
    } else if took {
      FlagsAgree(l, c, Pop(Idle(c)));
      PollAgrees(l, Pop(Idle(c)), i);
    }
  }

  lemma {:induction false} StepAgrees(l: Ledger, s: System, a: Action)
    requires Agrees(l, s.controller) && Possible(s.controller, a)
    ensures Agrees(Keeps(l, s.controller, a), Step(s, a).controller)
  {
    var c := s.controller;
    hide Agrees, SendCommand, SendData, Poll, Polls, Disable, Returned;
    match a {
      case Enable => FlagsAgree(l, c, c.(enabled := true));
      case Register => FlagsAgree(l, c, c.(registered := true));
      case Disabling => DisableAgrees(l, c);
      case Command(e) => CommandAgrees(l, c, e);
      case AclOut(handle) => AclAgrees(l, c, handle);
      case Wake(i) => PollAgrees(l, c, i);
      case Return(took, i) => ReturnAgrees(l, c, took, i);
    }
  }

  lemma {:induction false} RunAgrees(l: Ledger, s: System, actions: seq<Action>, t: System)
    requires Agrees(l, s.controller) && Run(s, actions, t)
    ensures Agrees(Kept(l, s, actions, t), t.controller)
    decreases |actions|
  {
    hide Agrees, Step, Possible, Keeps;
    if actions != [] {
      StepAgrees(l, s, actions[0]);
      RunAgrees(Keeps(l, s.controller, actions[0]), Step(s, actions[0]), actions[1..], t);
    }
  }

  // ----- The order of the ledger -----

  /** A note about a link, other than that it is up. */
  predicate About(n: Note, handle: nat) {
    (n.Down? || n.Heard? || n.Freed?) && n.handle == handle
  }

  /** A link is announced before anything else about it, and its end comes behind everything else about it. */
  predicate InOrder(log: seq<Note>) {
    && (forall i, j :: 0 <= i < j < |log| && log[j].Up? ==> !About(log[i], log[j].handle) && log[i] != log[j])
    && (forall i, j :: 0 <= i < j < |log| && log[i].Down? ==> !About(log[j], log[i].handle))
  }

  /** Links are numbered upwards; those that are not up are over. */
  predicate Ordered(l: Ledger) {
    && InOrder(l.log)
    && l.up <= l.last
    && (l.up == 0 ==> l.owed == 0)
    && (forall i :: 0 <= i < |l.log| && (l.log[i].Up? || l.log[i].Down? || l.log[i].Heard? || l.log[i].Freed?) ==>
          0 < l.log[i].handle <= l.last)
    && (forall i :: 0 <= i < |l.log| && l.log[i].Down? ==> l.log[i].handle != l.up)
  }

  lemma {:induction false} LinkEndsInOrder(l: Ledger, byCommand: bool, masked: bool)
    requires Ordered(l)
    ensures Ordered(LinkEnds(l, byCommand, masked))
  {
  }

  lemma {:induction false} HearsInOrder(l: Ledger, enabled: bool, m: Message)
    requires Ordered(l)
    ensures Ordered(Hears(l, enabled, m))
  {
    hide SduOk;
  }

  lemma {:induction false} PollsInOrder(l: Ledger, c: Controller, i: Input)
    requires Ordered(l)
    ensures Ordered(Polls(l, c, i))
  {
    hide Ordered, LinkEnds, HearsAll, TakeMessages, Write;
    var heard := HearsAll(l, c, i.messages);
    HearsAllInOrder(l, c, i.messages);
    LinkEndsInOrder(heard, false, i.masked);
    var ended := if i.lost then LinkEnds(heard, false, i.masked) else heard;
    if ended.owed > 0 { FreedInOrder(ended); }
  }

  lemma {:induction false} FreedInOrder(l: Ledger)
    requires Ordered(l) && l.owed > 0
    ensures Ordered(Write(l, Freed(l.up, l.owed), false).(owed := 0))
  {
  }

  lemma {:induction false} HearsAllInOrder(l: Ledger, c: Controller, messages: seq<Message>)
    requires Ordered(l)
    ensures Ordered(HearsAll(l, c, messages))
    decreases |messages|
  {
    hide Ordered, Hears, TakeMessage;
    if messages != [] && |c.events| < 24 {
      HearsInOrder(l, c.enabled, messages[0]);
      HearsAllInOrder(Hears(l, c.enabled, messages[0]), TakeMessage(c, messages[0]), messages[1..]);
    }
  }

  lemma {:induction false} DoneInOrder(l: Ledger, masked: bool)
    requires Ordered(l)
    ensures Ordered(Write(l, Done, false))
    ensures Ordered(Write(l, Note.Reported, masked))
  {
  }

  lemma {:induction false} KeepsInOrder(l: Ledger, c: Controller, a: Action)
    requires Ordered(l) && Possible(c, a)
    ensures Ordered(Keeps(l, c, a))
  {
    hide LinkEnds, Polls, Write, InOrder;
    match a {
      case Disabling => EmptyInOrder(l.last);
      case Command(e) =>
        DoneInOrder(l, false);
        DoneInOrder(Write(l, Done, false), e.Reports? && e.masked);
        LinkEndsInOrder(Write(l, Done, false), true, e.Disconnects? && e.masked);
      case Wake(i) => PollsInOrder(l, c, i);
      case Return(took, i) =>
        PollsInOrder(l, Idle(c), i);
        if took && !c.cancelled { PollsInOrder(l, Pop(Idle(c)), i); }
      case _ =>
    }
  }

  lemma {:induction false} EmptyInOrder(last: nat)
    ensures Ordered(Ledger(0, last, 0, []))
  {
  }

  lemma {:induction false} RunInOrder(l: Ledger, s: System, actions: seq<Action>, t: System)
    requires Ordered(l) && Run(s, actions, t)
    ensures Ordered(Kept(l, s, actions, t))
    decreases |actions|
  {
    hide Ordered, Step, Possible, Keeps;
    if actions != [] {
      KeepsInOrder(l, s.controller, actions[0]);
      RunInOrder(Keeps(l, s.controller, actions[0]), Step(s, actions[0]), actions[1..], t);
    }
  }

  // ----- Every run -----

  const EMPTY: Ledger := Ledger(0, 0, 0, [])

  /**
    In every run, whatever the host does, a host that puts together what a session has queued reads the ledger: every
    well-formed SDU of the link that was up when it was polled, whole, once and in order, with the links' beginnings
    and ends, the keys asked for, the acknowledgements and the commands' answers around it, and nothing else. What it
    has accepted so far reads as a beginning of the ledger, and as all of it once nothing waits.
   */
  lemma {:induction false} HostReadsTheLedger(actions: seq<Action>, s: System)
    requires Run(Start(), actions, s)
    ensures var l, c := Kept(EMPTY, Start(), actions, s), s.controller;
      && ReadsAll(BLANK, c.queued) == Reading([], l.log)
      && ReadsAll(BLANK, c.accepted).notes <= l.log
      && (c.events == [] ==> ReadsAll(BLANK, c.accepted) == Reading([], l.log))
      && c.connection == l.up
      && c.completed == l.owed
  {
    hide Run, Kept;
    var c := s.controller;
    StartAgrees();
    RunAgrees(EMPTY, Start(), actions, s);
    AcceptedInOrder(actions, s);
    hide ReadsAll;
    ReadsAppend(BLANK, c.accepted, c.events);
    ReadingGrows(ReadsAll(BLANK, c.accepted), c.events);
    assert c.accepted + [] == c.accepted;
  }

  lemma {:induction false} StartAgrees()
    ensures Agrees(EMPTY, Start().controller)
  {
  }

  /**
    In every run the ledger is in order: an SDU or an acknowledgement of a link comes behind the announcement of that
    link, if the host let it be announced, and before its end; no link is announced twice.
   */
  lemma {:induction false} LedgerInOrder(actions: seq<Action>, s: System)
    requires Run(Start(), actions, s)
    ensures var log := Kept(EMPTY, Start(), actions, s).log;
      && (forall i, j :: 0 <= i < j < |log| && log[j].Up? ==> !About(log[i], log[j].handle) && log[i] != log[j])
      && (forall i, j :: 0 <= i < j < |log| && log[i].Down? ==> !About(log[j], log[i].handle))
  {
    hide Run, Kept;
    EmptyInOrder(0);
    RunInOrder(EMPTY, Start(), actions, s);
    hide About;
  }
}
