/**
  The queue of packets from the controller to the host: what the peer, the host's commands and the credit reports put
  into it, and how the worker task delivers it while callbacks are in flight.
 */
module HciQueue {
  import opened Bits
  import opened L2cap

  /** Packets for the host. A disconnection is reported on the peer's, the link's or a command's account. */
  datatype Packet =
    | Completion
    | CommandEvent
    | Connected(handle: nat)
    | Disconnected(handle: nat, byCommand: bool)
    | Credits(handle: nat, count: nat)
    | EncryptionRequest
    | Data(acl: Acl)

  /** `queued` and `accepted` are the packets of this session: queued in delivery order, and accepted by the host. */
  datatype Controller = Controller(enabled: bool, registered: bool, events: seq<Packet>,
                                   inFlight: bool, cancelled: bool, readyPending: bool,
                                   sendAvailable: bool, commandPending: bool, completed: nat,
                                   connection: nat, lastHandle: nat, reported: nat, sent: nat,
                                   queued: seq<Packet>, accepted: seq<Packet>)

  const CAPACITY: nat := 64
  const POLL_LIMIT: nat := 24

  /** An event the host has masked is not queued. */
  function Queue(c: Controller, p: Packet, masked: bool): Controller {
    if masked then c else c.(events := c.events + [p], queued := c.queued + [p])
  }

  function QueueAll(c: Controller, packets: seq<Packet>): Controller {
    c.(events := c.events + packets, queued := c.queued + packets)
  }

  /** The link ends: the packets not yet reported are released with it. */
  function Drop(c: Controller, byCommand: bool, masked: bool): Controller {
    if c.connection == 0 then c
    else Queue(c, Disconnected(c.connection, byCommand), masked).(connection := 0, completed := 0)
  }

  // ----- The peer's messages -----

  /** What a message comes to: `Other` ones queue nothing. */
  datatype Message =
    | Connect(acceptable: bool, masked: bool)
    | Disconnect(masked: bool)
    | Sdu(data: Bytes)
    | Encrypt(masked: bool)
    | Other

  function DataPackets(fragments: seq<Acl>): (r: seq<Packet>)
    ensures |r| == |fragments|
  {
    seq(|fragments|, i requires 0 <= i < |fragments| => Data(fragments[i]))
  }

  function TakeMessage(c: Controller, m: Message): Controller {
    match m
    case Connect(acceptable, masked) =>
      if acceptable && c.connection == 0 && c.enabled then
        var n := c.lastHandle + 1;
        Queue(c.(connection := n, lastHandle := n, reported := 0, sent := 0), Connected(n), masked)
      else c
    case Disconnect(masked) => Drop(c, false, masked)
    case Sdu(data) =>
      if c.connection != 0 && SduOk(data) then QueueAll(c, DataPackets(Fragments(c.connection, data, 0))) else c
    case Encrypt(masked) => if c.connection != 0 then Queue(c, EncryptionRequest, masked) else c
    case Other => c
  }

  /** Messages are taken while the queue is short. */
  function TakeMessages(c: Controller, messages: seq<Message>): Controller
    decreases |messages|
  {
    if messages == [] || |c.events| >= POLL_LIMIT then c else TakeMessages(TakeMessage(c, messages[0]), messages[1..])
  }

  // ----- The worker task -----

  datatype Input = Input(messages: seq<Message>, lost: bool, masked: bool)

  /** Takes the peer's messages, and notices that the peer is gone. */
  function PollPeer(c: Controller, i: Input): Controller {
    var taken := TakeMessages(c, i.messages);
    if i.lost then Drop(taken, false, i.masked) else taken
  }

  function ReportCredits(c: Controller): Controller {
    if c.completed == 0 then c
    else Queue(c, Credits(c.connection, c.completed), false).(completed := 0, reported := c.reported + c.completed)
  }

  /** One poll; the result says which packet, if any, is handed to the receive callback. */
  function Poll(c: Controller, i: Input): (Controller, Option<Packet>) {
    var polled := PollPeer(c, i);
    if !polled.enabled || !polled.registered then (polled, None)
    else if polled.readyPending then (polled.(readyPending := false, sendAvailable := true), None)
    else
      var r := ReportCredits(polled);
      if r.events == [] then (r, None)
      else
        var front := r.events[0];
        (r.(inFlight := true, commandPending := r.commandPending && !front.Completion?), Some(front))
  }

  /** The receive callback returns; a delivery that a disable cancelled removes nothing. */
  function Returned(c: Controller, took: bool, i: Input): (Controller, Option<Packet>)
    requires c.inFlight && (!c.cancelled ==> c.events != [])
  {
    var back := c.(inFlight := false, cancelled := false);
    if c.cancelled then Poll(back, i)
    else if !took then (back, None)
    else Poll(back.(events := c.events[1..], accepted := c.accepted + [c.events[0]]), i)
  }

  // ----- The host's calls -----

  /** A command queues at most one event of its own. */
  datatype Effect = Silent | Reports(masked: bool) | Disconnects(masked: bool)

  function CommandEvents(c: Controller, e: Effect): Controller {
    match e
    case Silent => c
    case Reports(masked) => Queue(c, CommandEvent, masked)
    case Disconnects(masked) => Drop(c, true, masked)
  }

  /** The completion goes in where the queue ended before the command. */
  function SendCommand(c: Controller, e: Effect): Controller {
    var at, logged := |c.events|, |c.queued|;
    var done := CommandEvents(c, e);
    assert |done.events| >= at && |done.queued| >= logged by { var more := CommandEventsAppend(c, e); }
    done.(events := done.events[..at] + [Completion] + done.events[at..],
          queued := done.queued[..logged] + [Completion] + done.queued[logged..],
          commandPending := true, sendAvailable := false, readyPending := true)
  }

  /** A command adds at most one packet, at the end. */
  lemma {:induction false} CommandEventsAppend(c: Controller, e: Effect) returns (more: seq<Packet>)
    ensures |more| <= 1
    ensures CommandEvents(c, e).events == c.events + more
    ensures CommandEvents(c, e).queued == c.queued + more
  {
    more := match e
      case Silent => []
      case Reports(masked) => if masked then [] else [CommandEvent]
      case Disconnects(masked) => if masked || c.connection == 0 then [] else [Disconnected(c.connection, true)];
    assert c.events + [] == c.events && c.queued + [] == c.queued;
  }

  /** An ACL packet that the reassembly accepts, or one for a handle that is gone. */
  function SendData(c: Controller, handle: nat): Controller {
    var counted := c.connection != 0 && handle == c.connection;
    c.(completed := if counted then c.completed + 1 else c.completed, sent := if counted then c.sent + 1 else c.sent,
       sendAvailable := false, readyPending := true)
  }

  function Disable(c: Controller): Controller {
    c.(enabled := false, registered := false, events := [], cancelled := c.inFlight,
       readyPending := false, sendAvailable := true, commandPending := false, completed := 0, connection := 0,
       queued := [], accepted := [])
  }

  /** The completion comes right behind what was queued before, and right before what the command queued. */
  lemma {:induction false} CompletionComesFirst(c: Controller, e: Effect) returns (more: seq<Packet>)
    ensures |more| <= 1 && CommandEvents(c, e).events == c.events + more
    ensures SendCommand(c, e).events == c.events + ([Completion] + more)
    ensures SendCommand(c, e).queued == c.queued + ([Completion] + more)
  {
    more := CommandEventsAppend(c, e);
    hide CommandEvents;
    InsertAt(c.events, Completion, more);
    InsertAt(c.queued, Completion, more);
  }

  lemma {:induction false} InsertAt(before: seq<Packet>, p: Packet, more: seq<Packet>)
    ensures (before + more)[..|before|] + [p] + (before + more)[|before|..] == before + ([p] + more)
  {
    assert (before + more)[..|before|] == before && (before + more)[|before|..] == more;
  }

  // ----- Controller and host -----

  /** The handle it has learned, the ACL packets without an answer, and whether a command is without its completion. */
  datatype Host = Host(known: Option<nat>, unanswered: nat, commandOut: bool)

  function HostAccepts(h: Host, p: Packet): Host {
    match p
    case Completion => h.(commandOut := false)
    case Connected(handle) => h.(known := Some(handle), unanswered := 0)
    case Disconnected(handle, _) => if h.known == Some(handle) then h.(known := None, unanswered := 0) else h
    case Credits(handle, count) =>
      if h.known == Some(handle) then h.(unanswered := if count <= h.unanswered then h.unanswered - count else 0) else h
    case _ => h
  }

  /** Controller and host, and the packet that the last delivery offered. */
  datatype System = System(controller: Controller, host: Host, offered: Option<Packet>)

  datatype Action =
    | Enable
    | Register
    | Disabling
    | Command(effect: Effect)
    | AclOut(handle: nat)
    | Wake(input: Input)
    | Return(took: bool, answer: Input)

  const CREDITS: nat := 12

  /**
    What the controller lets happen, whatever the host is like: it sends when it is told it may, and no command before
    the completion of the one before is handed over. The worker does not wake while its callback runs.
   */
  predicate Possible(c: Controller, a: Action) {
    match a
    case Enable => !c.enabled
    case Register => c.enabled
    case Disabling => true
    case Command(_) => c.enabled && c.sendAvailable && !c.commandPending
    case AclOut(_) => c.enabled && c.sendAvailable
    case Wake(_) => !c.inFlight
    case Return(_, _) => c.inFlight && (!c.cancelled ==> c.events != [])
  }

  function Step(s: System, a: Action): System
    requires Possible(s.controller, a)
  {
    var c, h := s.controller, s.host;
    match a
    case Enable => s.(controller := c.(enabled := true))
    case Register => s.(controller := c.(registered := true))
    case Disabling => s.(controller := Disable(c), host := Host(None, 0, false))
    case Command(e) => s.(controller := SendCommand(c, e), host := h.(commandOut := true))
    case AclOut(handle) => s.(controller := SendData(c, handle), host := h.(unanswered := h.unanswered + 1))
    case Wake(i) => var (polled, offered) := Poll(c, i); System(polled, h, offered)
    case Return(took, i) =>
      var (polled, offered) := Returned(c, took, i);
      System(polled, if took && !c.cancelled then HostAccepts(h, c.events[0]) else h, offered)
  }

  /** A run with any host. */
  ghost predicate Run(s: System, actions: seq<Action>, t: System)
    decreases |actions|
  {
    if actions == [] then s == t
    else Possible(s.controller, actions[0]) && Run(Step(s, actions[0]), actions[1..], t)
  }

  function Start(): System {
    System(Controller(false, false, [], false, false, false, true, false, 0, 0, 0, 0, 0, [], []),
           Host(None, 0, false), None)
  }

  // ----- A host that keeps to its credits -----

  /** One command until its completion is accepted; ACL packets on the handle it knows, within its credits. */
  predicate Disciplined(h: Host, a: Action) {
    match a
    case Command(_) => !h.commandOut
    case AclOut(handle) => h.known == Some(handle) && h.unanswered < CREDITS
    case _ => true
  }

  ghost predicate DisciplinedRun(s: System, actions: seq<Action>, t: System)
    decreases |actions|
  {
    if actions == [] then s == t
    else
      && Possible(s.controller, actions[0])
      && Disciplined(s.host, actions[0])
      && DisciplinedRun(Step(s, actions[0]), actions[1..], t)
  }
}
