/**
  What delivery keeps in every run, whatever the host does: packets are accepted exactly once and in order, only an
  accepted packet leaves the queue, and the acknowledgements of a link balance.
 */
module HciDelivery {
  import opened Bits
  import opened L2cap
  import opened HciQueue

  // ----- The invariant -----

  /** What was queued is accepted or still waits; what was sent on a link is reported or still to be reported. */
  predicate Kept(c: Controller) {
    && c.queued == c.accepted + c.events
    && (if c.connection == 0 then c.completed == 0 else c.sent == c.reported + c.completed)
  }

  /** The callback that runs, unless it was cancelled, was given the packet at the front. */
  predicate Delivering(s: System) {
    && Kept(s.controller)
    && (s.controller.cancelled ==> s.controller.inFlight)
    && (s.controller.inFlight && !s.controller.cancelled ==>
          s.controller.events != [] && s.offered == Some(s.controller.events[0]))
  }

  /** Nothing that the delivery depends on has changed, and packets were only added at the end. */
  predicate OnlyGrows(c: Controller, d: Controller) {
    && d.inFlight == c.inFlight
    && d.cancelled == c.cancelled
    && d.accepted == c.accepted
    && c.events <= d.events
  }

  predicate Grows(c: Controller, d: Controller) {
    OnlyGrows(c, d) && (Kept(c) ==> Kept(d))
  }

  lemma {:induction false} GrowsTwice(c: Controller, d: Controller, e: Controller)
    requires Grows(c, d) && Grows(d, e)
    ensures Grows(c, e)
  {
    hide Kept;
  }

  // ----- The queue's operations -----

  lemma {:induction false} LogAppends(queued: seq<Packet>, accepted: seq<Packet>,
                                      events: seq<Packet>, more: seq<Packet>)
    requires queued == accepted + events
    ensures queued + more == accepted + (events + more)
  {
  }

  lemma {:induction false} SameGrows(c: Controller)
    ensures Grows(c, c)
  {
  }

  lemma {:induction false} QueueGrows(c: Controller, p: Packet, masked: bool)
    ensures Grows(c, Queue(c, p, masked))
  {
    if Kept(c) { LogAppends(c.queued, c.accepted, c.events, [p]); }
  }

  lemma {:induction false} QueueAllGrows(c: Controller, more: seq<Packet>)
    ensures Grows(c, QueueAll(c, more))
  {
    if Kept(c) { LogAppends(c.queued, c.accepted, c.events, more); }
  }

  lemma {:induction false} DropGrows(c: Controller, byCommand: bool, masked: bool)
    ensures Grows(c, Drop(c, byCommand, masked))
  {
    if c.connection == 0 {
      SameGrows(c);
    } else {
      var q := Queue(c, Disconnected(c.connection, byCommand), masked);
      QueueGrows(c, Disconnected(c.connection, byCommand), masked);
      hide Queue;
      Unlinked(q);
      GrowsTwice(c, q, q.(connection := 0, completed := 0));
    }
  }

  lemma {:induction false} Unlinked(c: Controller)
    ensures Grows(c, c.(connection := 0, completed := 0))
  {
  }

  lemma {:induction false} ConnectGrows(c: Controller, masked: bool)
    requires c.connection == 0
    ensures var n := c.lastHandle + 1;
      Grows(c, Queue(c.(connection := n, lastHandle := n, reported := 0, sent := 0), Connected(n), masked))
  {
    var n := c.lastHandle + 1;
    var d := c.(connection := n, lastHandle := n, reported := 0, sent := 0);
    assert Grows(c, d);
    QueueGrows(d, Connected(n), masked);
    hide Queue, Grows;
    GrowsTwice(c, d, Queue(d, Connected(n), masked));
  }

  lemma {:induction false} MessageGrows(c: Controller, m: Message)
    ensures Grows(c, TakeMessage(c, m))
  {
    hide Grows, Queue, QueueAll, Drop, Fragments, SduOk;
    SameGrows(c);
    match m {
      case Connect(_, masked) => if c.connection == 0 { ConnectGrows(c, masked); }
      case Disconnect(masked) => DropGrows(c, false, masked);
      case Sdu(data) => QueueAllGrows(c, DataPackets(Fragments(c.connection, data, 0)));
      case Encrypt(masked) => QueueGrows(c, EncryptionRequest, masked);
      case Other =>
    }
  }

  lemma {:induction false} MessagesGrow(c: Controller, messages: seq<Message>)
    ensures Grows(c, TakeMessages(c, messages))
    decreases |messages|
  {
    hide Grows, TakeMessage;
    if messages == [] || |c.events| >= POLL_LIMIT {
      SameGrows(c);
    } else {
      var d := TakeMessage(c, messages[0]);
      MessageGrows(c, messages[0]);
      MessagesGrow(d, messages[1..]);
      GrowsTwice(c, d, TakeMessages(d, messages[1..]));
    }
  }

  lemma {:induction false} PollPeerGrows(c: Controller, i: Input)
    ensures Grows(c, PollPeer(c, i))
  {
    hide Grows, TakeMessages, Drop;
    var taken := TakeMessages(c, i.messages);
    MessagesGrow(c, i.messages);
    if i.lost {
      DropGrows(taken, false, i.masked);
      GrowsTwice(c, taken, Drop(taken, false, i.masked));
    }
  }

  lemma {:induction false} ReportGrows(c: Controller)
    ensures Grows(c, ReportCredits(c))
  {
    hide Grows, Kept, OnlyGrows;
    if c.completed == 0 {
      SameGrows(c);
    } else {
      var q := Queue(c, Credits(c.connection, c.completed), false);
      QueueGrows(c, Credits(c.connection, c.completed), false);
      QueueKeepsLink(c, Credits(c.connection, c.completed), false);
      hide Queue;
      Reported(q, c.completed);
      GrowsTwice(c, q, q.(completed := 0, reported := q.reported + c.completed));
    }
  }

  lemma {:induction false} QueueKeepsLink(c: Controller, p: Packet, masked: bool)
    ensures Queue(c, p, masked).completed == c.completed
    ensures Queue(c, p, masked).reported == c.reported
  {
  }

  lemma {:induction false} Reported(c: Controller, count: nat)
    requires c.completed == count
    ensures Grows(c, c.(completed := 0, reported := c.reported + count))
  {
  }

  lemma {:induction false} PollGrows(c: Controller, i: Input)
    ensures Grows(c, ReportCredits(PollPeer(c, i)))
  {
    hide Grows, PollPeer, ReportCredits;
    PollPeerGrows(c, i);
    ReportGrows(PollPeer(c, i));
    GrowsTwice(c, PollPeer(c, i), ReportCredits(PollPeer(c, i)));
  }

  /** A poll hands over the packet at the front, if any. */
  lemma {:induction false} PollDelivers(c: Controller, h: Host, i: Input)
    requires Kept(c) && !c.inFlight && !c.cancelled
    ensures Delivering(System(Poll(c, i).0, h, Poll(c, i).1))
    ensures Poll(c, i).0.accepted == c.accepted
    ensures c.events <= Poll(c, i).0.events
  {
    PollPeerGrows(c, i);
    PollGrows(c, i);
    hide PollPeer, ReportCredits;
  }

  // ----- Acceptance -----

  function Pop(c: Controller): Controller
    requires c.events != []
  {
    c.(events := c.events[1..], accepted := c.accepted + [c.events[0]])
  }

  lemma {:induction false} PopKept(c: Controller)
    requires Kept(c) && c.events != []
    ensures Kept(Pop(c))
  {
    assert c.events == [c.events[0]] + c.events[1..];
  }

  function Idle(c: Controller): Controller {
    c.(inFlight := false, cancelled := false)
  }

  lemma {:induction false} IdleKept(c: Controller)
    ensures Kept(c) ==> Kept(Idle(c))
  {
  }

  lemma {:induction false} ReturnDelivers(s: System, took: bool, i: Input)
    requires Delivering(s) && Possible(s.controller, Return(took, i))
    ensures Delivering(Step(s, Return(took, i)))
    ensures OnlyFrontLeaves(s, Return(took, i))
  {
    var c, h := s.controller, Step(s, Return(took, i)).host;
    IdleKept(c);
    if c.cancelled {
      PollDelivers(Idle(c), h, i);
    } else if took {
      PopKept(Idle(c));
      PollDelivers(Pop(Idle(c)), h, i);
    }
    hide Kept, Poll;
  }

  /** The one packet that may leave the queue is the offered one, when the host accepts it in its session. */
  predicate OnlyFrontLeaves(s: System, a: Action)
    requires Possible(s.controller, a)
  {
    var c, d := s.controller, Step(s, a).controller;
    if a.Return? && a.took && !c.cancelled then
      && c.events != []
      && s.offered == Some(c.events[0])
      && d.accepted == c.accepted + [c.events[0]]
      && c.events[1..] <= d.events
    else d.accepted == c.accepted && c.events <= d.events
  }

  // ----- The host's calls -----

  lemma {:induction false} CommandKeepsFlags(c: Controller, e: Effect)
    ensures SendCommand(c, e).accepted == c.accepted
    ensures SendCommand(c, e).inFlight == c.inFlight
    ensures SendCommand(c, e).cancelled == c.cancelled
    ensures SendCommand(c, e).connection == CommandEvents(c, e).connection
    ensures SendCommand(c, e).completed == CommandEvents(c, e).completed
    ensures SendCommand(c, e).sent == CommandEvents(c, e).sent
    ensures SendCommand(c, e).reported == CommandEvents(c, e).reported
  {
    EventsKeepFlags(c, e);
    hide CommandEvents;
  }

  lemma {:induction false} EventsKeepFlags(c: Controller, e: Effect)
    ensures OnlyGrows(c, CommandEvents(c, e))
    ensures Kept(c) ==> Kept(CommandEvents(c, e))
  {
    hide Queue, Drop, OnlyGrows, Kept;
    SameGrows(c);
    match e {
      case Silent =>
      case Reports(masked) => QueueGrows(c, CommandEvent, masked);
      case Disconnects(masked) => DropGrows(c, true, masked);
    }
  }

  lemma {:induction false} CommandDelivers(c: Controller, e: Effect)
    ensures Grows(c, SendCommand(c, e))
  {
    var more := CompletionComesFirst(c, e);
    CommandKeepsFlags(c, e);
    EventsKeepFlags(c, e);
    hide SendCommand, CommandEvents;
    if Kept(c) { LogAppends(c.queued, c.accepted, c.events, [Completion] + more); }
  }

  lemma {:induction false} DataDelivers(c: Controller, handle: nat)
    ensures Grows(c, SendData(c, handle))
  {
    DataCounts(c, handle);
    SameQueueGrows(c, SendData(c, handle));
  }

  lemma {:induction false} DataCounts(c: Controller, handle: nat)
    ensures SameQueue(c, SendData(c, handle))
    ensures var d := SendData(c, handle);
      if c.connection != 0 && handle == c.connection then d.completed == c.completed + 1 && d.sent == c.sent + 1
      else d.completed == c.completed && d.sent == c.sent
  {
  }

  predicate SameQueue(c: Controller, d: Controller) {
    && d.events == c.events
    && d.queued == c.queued
    && d.accepted == c.accepted
    && d.inFlight == c.inFlight
    && d.cancelled == c.cancelled
    && d.connection == c.connection
    && d.reported == c.reported
  }

  lemma {:induction false} SameQueueGrows(c: Controller, d: Controller)
    requires SameQueue(c, d)
    requires if c.connection == 0 then d.completed == c.completed else d.sent - d.completed == c.sent - c.completed
    ensures Grows(c, d)
  {
  }

  // ----- Every run -----

  lemma {:induction false} GrowsDelivers(s: System, t: System)
    requires Delivering(s) && Grows(s.controller, t.controller) && t.offered == s.offered
    ensures Delivering(t)
  {
    hide Kept;
  }

  lemma {:induction false} FlagsDeliver(s: System, a: Action)
    requires Delivering(s) && Possible(s.controller, a) && (a.Enable? || a.Register? || a.Disabling?)
    ensures Delivering(Step(s, a))
    ensures a != Disabling ==> OnlyFrontLeaves(s, a)
  {
  }

  lemma {:induction false} StepDelivers(s: System, a: Action)
    requires Delivering(s) && Possible(s.controller, a)
    ensures Delivering(Step(s, a))
    ensures a != Disabling ==> OnlyFrontLeaves(s, a)
  {
    var c := s.controller;
    hide SendCommand, SendData, Poll, Returned, Kept, Disable;
    match a {
      case Command(e) =>
        CommandDelivers(c, e);
        GrowsDelivers(s, Step(s, a));
      case AclOut(handle) =>
        DataDelivers(c, handle);
        GrowsDelivers(s, Step(s, a));
      case Wake(i) => PollDelivers(c, s.host, i);
      case Return(took, i) => ReturnDelivers(s, took, i);
      case _ => FlagsDeliver(s, a);
    }
  }

  lemma {:induction false} RunDelivers(s: System, actions: seq<Action>, t: System)
    requires Delivering(s) && Run(s, actions, t)
    ensures Delivering(t)
    decreases |actions|
  {
    hide Delivering, Step, Possible;
    if actions != [] {
      StepDelivers(s, actions[0]);
      RunDelivers(Step(s, actions[0]), actions[1..], t);
    }
  }

  lemma {:induction false} AllRunsDeliver(actions: seq<Action>, t: System)
    requires Run(Start(), actions, t)
    ensures Delivering(t)
  {
    hide Run;
    assert Delivering(Start());
    RunDelivers(Start(), actions, t);
  }

  /**
    In every run, whatever the host does: what a session has queued is what the host has accepted, in that order,
    followed by what is still in the queue; and a callback that runs holds the packet that is still at the front.
   */
  lemma {:induction false} AcceptedInOrder(actions: seq<Action>, s: System)
    requires Run(Start(), actions, s)
    ensures s.controller.queued == s.controller.accepted + s.controller.events
    ensures s.controller.inFlight && !s.controller.cancelled ==>
              s.controller.events != [] && s.offered == Some(s.controller.events[0])
  {
    hide Run;
    AllRunsDeliver(actions, s);
  }

  /**
    In every run a packet leaves the queue only when the host accepts the very packet it was offered; a callback that
    outlives its session removes nothing of the next one.
   */
  lemma {:induction false} OnlyAcceptedLeave(actions: seq<Action>, s: System, a: Action)
    requires Run(Start(), actions, s) && Possible(s.controller, a) && a != Disabling
    ensures var c, d := s.controller, Step(s, a).controller;
      if a.Return? && a.took && !c.cancelled then
        && c.events != []
        && s.offered == Some(c.events[0])
        && d.accepted == c.accepted + [c.events[0]]
        && c.events[1..] <= d.events
      else d.accepted == c.accepted && c.events <= d.events
  {
    hide Run, Step, Delivering, Possible;
    AllRunsDeliver(actions, s);
    StepDelivers(s, a);
  }

  /** On every link of every run, the ACL packets accepted are those reported and those still to be reported. */
  lemma {:induction false} CreditsBalance(actions: seq<Action>, s: System)
    requires Run(Start(), actions, s) && s.controller.connection != 0
    ensures s.controller.sent == s.controller.reported + s.controller.completed
  {
    hide Run;
    AllRunsDeliver(actions, s);
  }

  // ----- Sending again -----

  /** The completion of the last command waits, and not as the packet that a callback holds. */
  predicate CompletionWaits(c: Controller) {
    exists i :: (if c.inFlight && !c.cancelled then 1 else 0) <= i < |c.events| && c.events[i] == Completion
  }

  /** A host that may not send will be told when it may again, and that its command is complete. */
  predicate Promised(c: Controller) {
    (!c.sendAvailable ==> c.readyPending) && (c.commandPending ==> CompletionWaits(c))
  }

  /** Nothing that the promise depends on has changed but for packets at the end. */
  predicate SamePromise(c: Controller, d: Controller) {
    && c.events <= d.events
    && d.enabled == c.enabled
    && d.registered == c.registered
    && d.sendAvailable == c.sendAvailable
    && d.readyPending == c.readyPending
    && d.commandPending == c.commandPending
    && d.inFlight == c.inFlight
    && d.cancelled == c.cancelled
  }

  lemma {:induction false} QueueSamePromise(c: Controller, p: Packet, masked: bool)
    ensures SamePromise(c, Queue(c, p, masked))
  {
  }

  lemma {:induction false} DropSamePromise(c: Controller, byCommand: bool, masked: bool)
    ensures SamePromise(c, Drop(c, byCommand, masked))
  {
    QueueSamePromise(c, Disconnected(c.connection, byCommand), masked);
    hide Queue;
  }

  lemma {:induction false} MessageSamePromise(c: Controller, m: Message)
    ensures SamePromise(c, TakeMessage(c, m))
  {
    hide Queue, Drop, Fragments, SduOk;
    match m {
      case Connect(_, masked) =>
        var n := c.lastHandle + 1;
        QueueSamePromise(c.(connection := n, lastHandle := n, reported := 0, sent := 0), Connected(n), masked);
      case Disconnect(masked) => DropSamePromise(c, false, masked);
      case Sdu(_) =>
      case Encrypt(masked) => QueueSamePromise(c, EncryptionRequest, masked);
      case Other =>
    }
  }

  lemma {:induction false} MessagesSamePromise(c: Controller, messages: seq<Message>)
    ensures SamePromise(c, TakeMessages(c, messages))
    decreases |messages|
  {
    hide TakeMessage;
    if messages != [] && |c.events| < POLL_LIMIT {
      MessageSamePromise(c, messages[0]);
      MessagesSamePromise(TakeMessage(c, messages[0]), messages[1..]);
    }
  }

  lemma {:induction false} PollPeerSamePromise(c: Controller, i: Input)
    ensures SamePromise(c, PollPeer(c, i))
  {
    hide TakeMessages, Drop;
    MessagesSamePromise(c, i.messages);
    DropSamePromise(TakeMessages(c, i.messages), false, i.masked);
  }

  lemma {:induction false} ReportSamePromise(c: Controller)
    ensures SamePromise(c, ReportCredits(c))
  {
    QueueSamePromise(c, Credits(c.connection, c.completed), false);
    hide Queue;
  }

  lemma {:induction false} StillPromised(c: Controller, d: Controller)
    requires Promised(c) && SamePromise(c, d)
    ensures Promised(d)
  {
    if c.commandPending {
      var i :| (if c.inFlight && !c.cancelled then 1 else 0) <= i < |c.events| && c.events[i] == Completion;
      assert d.events[i] == Completion;
    }
  }

  /** A poll with the callbacks registered lets the host send; it clears a command only as its completion is offered. */
  lemma {:induction false} PollPromises(c: Controller, i: Input)
    requires Promised(c) && !c.inFlight && !c.cancelled
    ensures Promised(Poll(c, i).0)
    ensures c.enabled && c.registered ==> Poll(c, i).0.sendAvailable
  {
    hide PollPeer, ReportCredits, Promised;
    PollPeerSamePromise(c, i);
    StillPromised(c, PollPeer(c, i));
    var r := ReportCredits(PollPeer(c, i));
    ReportSamePromise(PollPeer(c, i));
    StillPromised(PollPeer(c, i), r);
    Unfulfilled(PollPeer(c, i));
    Unfulfilled(r);
  }

  lemma {:induction false} Unfulfilled(c: Controller)
    requires Promised(c) && !c.inFlight && !c.cancelled
    ensures !c.sendAvailable ==> c.readyPending
    ensures Promised(c.(readyPending := false, sendAvailable := true))
    ensures c.events != [] ==>
      Promised(c.(inFlight := true, commandPending := c.commandPending && !c.events[0].Completion?))
  {
    var ready := c.(readyPending := false, sendAvailable := true);
    if c.commandPending {
      var i :| 0 <= i < |c.events| && c.events[i] == Completion;
      assert ready.events[i] == Completion;
      var offered := c.(inFlight := true, commandPending := c.commandPending && !c.events[0].Completion?);
      assert offered.events[i] == Completion;
    }
  }

  lemma {:induction false} ReturnPromises(c: Controller, took: bool, i: Input)
    requires Promised(c) && Possible(c, Return(took, i))
    ensures Promised(Returned(c, took, i).0)
    ensures c.enabled && c.registered && (took || c.cancelled) ==> Returned(c, took, i).0.sendAvailable
  {
    var back := if took && !c.cancelled then Pop(Idle(c)) else Idle(c);
    if c.commandPending {
      var k :| (if c.inFlight && !c.cancelled then 1 else 0) <= k < |c.events| && c.events[k] == Completion;
      assert back.events[if took && !c.cancelled then k - 1 else k] == Completion;
    }
    assert Promised(back);
    hide Promised, Poll;
    PollPromises(back, i);
  }

  lemma {:induction false} CommandPromises(c: Controller, e: Effect)
    requires Promised(c) && (c.inFlight && !c.cancelled ==> c.events != [])
    ensures Promised(SendCommand(c, e))
  {
    var more := CompletionComesFirst(c, e);
    CommandKeepsFlags(c, e);
    hide CommandEvents;
    assert SendCommand(c, e).events[|c.events|] == Completion;
  }

  lemma {:induction false} StepPromises(s: System, a: Action)
    requires Delivering(s) && Promised(s.controller) && Possible(s.controller, a)
    ensures Promised(Step(s, a).controller)
  {
    var c := s.controller;
    hide SendCommand, Poll, Returned, Kept;
    match a {
      case Command(e) => CommandPromises(c, e);
      case Wake(i) => PollPromises(c, i);
      case Return(took, i) => ReturnPromises(c, took, i);
      case AclOut(_) => SameEventsPromise(c, Step(s, a).controller);
      case Enable => SameEventsPromise(c, Step(s, a).controller);
      case Register => SameEventsPromise(c, Step(s, a).controller);
      case Disabling =>
    }
  }

  lemma {:induction false} SameEventsPromise(c: Controller, d: Controller)
    requires Promised(c) && d.events == c.events && d.inFlight == c.inFlight && d.cancelled == c.cancelled
    requires d.commandPending == c.commandPending
    requires d.readyPending || (d.sendAvailable == c.sendAvailable && d.readyPending == c.readyPending)
    ensures Promised(d)
  {
  }

  lemma {:induction false} RunPromises(s: System, actions: seq<Action>, t: System)
    requires Delivering(s) && Promised(s.controller) && Run(s, actions, t)
    ensures Delivering(t) && Promised(t.controller)
    decreases |actions|
  {
    hide Delivering, Promised, Step, Possible;
    if actions != [] {
      StepDelivers(s, actions[0]);
      StepPromises(s, actions[0]);
      RunPromises(Step(s, actions[0]), actions[1..], t);
    }
  }

  /**
    In every run, a host that sent a packet may send again as soon as the worker next polls with the callbacks
    registered, whatever else waits; and as long as its last command is not complete, the completion is in the queue.
   */
  lemma {:induction false} HostMaySendAgain(actions: seq<Action>, s: System, a: Action)
    requires Run(Start(), actions, s) && Possible(s.controller, a)
    ensures var c, d := s.controller, Step(s, a).controller;
      && (c.enabled && c.registered && (a.Wake? || (a.Return? && (a.took || c.cancelled))) ==> d.sendAvailable)
      && (c.commandPending ==> Completion in c.events)
  {
    hide Run;
    var c := s.controller;
    assert Delivering(Start()) && Promised(Start().controller);
    RunPromises(Start(), actions, s);
    assert c.inFlight || !c.cancelled;
    hide Poll, Returned, Kept;
    match a {
      case Wake(i) => PollPromises(c, i);
      case Return(took, i) => ReturnPromises(c, took, i);
      case _ =>
    }
  }

  // ----- The worker delivers -----

  lemma {:induction false} PollOffers(c: Controller, i: Input)
    requires c.enabled && c.registered && !c.readyPending
    ensures var (d, offered) := Poll(c, i);
      if d.events == [] then offered == None && d.completed == 0
      else offered == Some(d.events[0]) && d.inFlight
  {
    PollPeerSamePromise(c, i);
    ReportSamePromise(PollPeer(c, i));
    NothingUnreported(PollPeer(c, i));
    hide PollPeer, ReportCredits, SamePromise;
    FlagsKept(c, PollPeer(c, i));
  }

  lemma {:induction false} FlagsKept(c: Controller, d: Controller)
    ensures SamePromise(c, d) ==>
      d.enabled == c.enabled && d.registered == c.registered && d.readyPending == c.readyPending
  {
  }

  lemma {:induction false} NothingUnreported(c: Controller)
    ensures ReportCredits(c).completed == 0
  {
  }

  /**
    In every state the worker, as it polls, offers the host the packet at the front unless it first has to tell it that
    it may send again; it rests only when no packet waits and no acknowledgement is owed.
   */
  lemma {:induction false} WorkerDelivers(s: System, a: Action)
    requires Possible(s.controller, a)
    requires a.Wake? || (a.Return? && (a.took || s.controller.cancelled))
    requires s.controller.enabled && s.controller.registered && !s.controller.readyPending
    ensures var t := Step(s, a);
      if t.controller.events == [] then t.offered == None && t.controller.completed == 0
      else t.offered == Some(t.controller.events[0]) && t.controller.inFlight
  {
    var c := s.controller;
    hide Poll;
    match a {
      case Wake(i) => PollOffers(c, i);
      case Return(took, i) => PollOffers(if c.cancelled then Idle(c) else Pop(Idle(c)), i);
    }
  }
}
