/** The controller's delivery of packets to the host: the queue and its flags change in place. */
module BleTransportObject {
  import opened Bits
  import opened L2cap
  import opened HciQueue

  class BleTransport {
    var enabled: bool
    var registered: bool
    var events: seq<Packet>
    var inFlight: bool
    var cancelled: bool
    var readyPending: bool
    var sendAvailable: bool
    var commandPending: bool
    var completed: nat
    var connection: nat
    var lastHandle: nat
    ghost var reported: nat
    ghost var sent: nat
    ghost var queued: seq<Packet>
    ghost var accepted: seq<Packet>

    ghost function View(): Controller
      reads this
    {
      Controller(enabled, registered, events, inFlight, cancelled, readyPending, sendAvailable, commandPending,
                 completed, connection, lastHandle, reported, sent, queued, accepted)
    }

    constructor ()
      ensures View() == Start().controller
    {
      enabled, registered, events, inFlight, cancelled, readyPending := false, false, [], false, false, false;
      sendAvailable, commandPending, completed, connection, lastHandle := true, false, 0, 0, 0;
      reported, sent, queued, accepted := 0, 0, [], [];
    }

    method QueueEvent(p: Packet, masked: bool)
      modifies `events, `queued
      ensures View() == Queue(old(View()), p, masked)
    {
      if masked { return; }
      events := events + [p];
      queued := queued + [p];
    }

    method DropLink(byCommand: bool, masked: bool)
      modifies `events, `queued, `connection, `completed
      ensures View() == Drop(old(View()), byCommand, masked)
    {
      if connection == 0 { return; }
      QueueEvent(Disconnected(connection, byCommand), masked);
      connection := 0;
      completed := 0;
    }

    /** The fragment loop pushes straight into the queue. */
    method ReceiveL2cap(sdu: Bytes)
      modifies `events, `queued
      ensures View() == QueueAll(old(View()), DataPackets(Fragments(connection, sdu, 0)))
    {
      hide Fragments;
      ghost var packets := DataPackets(Fragments(connection, sdu, 0));
      var offset := 0;
      assert DataPackets([]) == [];
      while offset < |sdu|
        invariant offset <= |sdu|
        invariant events + DataPackets(Fragments(connection, sdu, offset)) == old(events) + packets
        invariant queued + DataPackets(Fragments(connection, sdu, offset)) == old(queued) + packets
      {
        NextFragment(connection, sdu, offset);
        var size := if ACL_PAYLOAD < |sdu| - offset then ACL_PAYLOAD else |sdu| - offset;
        var acl := Acl(connection, if offset == 0 then STARTS else CONTINUES, sdu[offset..offset + size]);
        ghost var rest := DataPackets(Fragments(connection, sdu, offset + size));
        FirstDataPacket(acl, Fragments(connection, sdu, offset + size));
        assert events + ([Data(acl)] + rest) == events + [Data(acl)] + rest;
        assert queued + ([Data(acl)] + rest) == queued + [Data(acl)] + rest;
        events := events + [Data(acl)];
        queued := queued + [Data(acl)];
        offset := offset + size;
      }
      NextFragment(connection, sdu, offset);
      assert events + [] == events && queued + [] == queued;
    }

    method AcceptConnection(masked: bool)
      modifies `events, `queued, `connection, `lastHandle, `reported, `sent
      ensures var n := old(lastHandle) + 1;
              View() == Queue(old(View()).(connection := n, lastHandle := n, reported := 0, sent := 0),
                              Connected(n), masked)
    {
      lastHandle := lastHandle + 1;
      connection := lastHandle;
      reported, sent := 0, 0;
      QueueEvent(Connected(connection), masked);
    }

    method PeerMessage(m: Message)
      modifies `events, `queued, `connection, `completed, `lastHandle, `reported, `sent
      ensures View() == TakeMessage(old(View()), m)
    {
      hide Fragments, Drop, Queue, QueueAll, SduOk;
      match m {
        case Connect(acceptable, masked) =>
          if acceptable && connection == 0 && enabled { AcceptConnection(masked); }
        case Disconnect(masked) =>
          DropLink(false, masked);
        case Sdu(data) =>
          if connection != 0 && SduOk(data) { ReceiveL2cap(data); }
        case Encrypt(masked) =>
          if connection != 0 { QueueEvent(EncryptionRequest, masked); }
        case Other =>
      }
    }

    /** The polling loop, over the messages that have arrived; the ones beyond the limit stay where they are. */
    method PollThePeer(input: Input)
      modifies `events, `queued, `connection, `completed, `lastHandle, `reported, `sent
      ensures View() == PollPeer(old(View()), input)
    {
      hide TakeMessage;
      ghost var start := View();
      var taken := 0;
      assert input.messages[0..] == input.messages;
      while taken < |input.messages| && |events| < POLL_LIMIT
        invariant taken <= |input.messages|
        invariant TakeMessages(View(), input.messages[taken..]) == TakeMessages(start, input.messages)
      {
        assert input.messages[taken..][1..] == input.messages[taken + 1..];
        PeerMessage(input.messages[taken]);
        taken := taken + 1;
      }
      if input.lost { DropLink(false, input.masked); }
    }

    method ReportCompleted()
      modifies `events, `queued, `completed, `reported
      ensures View() == ReportCredits(old(View()))
    {
      if completed == 0 { return; }
      QueueEvent(Credits(connection, completed), false);
      reported := reported + completed;
      completed := 0;
    }

    /** One poll of the worker; the result is what it hands to the receive callback. */
    method Poll(input: Input) returns (offered: Option<Packet>)
      modifies `events, `queued, `connection, `completed, `lastHandle, `reported, `sent
      modifies `readyPending, `sendAvailable, `commandPending, `inFlight
      ensures View() == HciQueue.Poll(old(View()), input).0
      ensures offered == HciQueue.Poll(old(View()), input).1
    {
      hide PollPeer, ReportCredits;
      PollThePeer(input);
      if !enabled || !registered { return None; }
      if readyPending {
        readyPending := false;
        sendAvailable := true;
        return None;
      }
      ReportCompleted();
      if |events| == 0 { return None; }
      if events[0].Completion? { commandPending := false; }
      inFlight := true;
      offered := Some(events[0]);
    }

    method ReceiveReturned(took: bool, input: Input) returns (offered: Option<Packet>)
      requires inFlight && (!cancelled ==> events != [])
      modifies this
      ensures View() == Returned(old(View()), took, input).0
      ensures offered == Returned(old(View()), took, input).1
    {
      hide HciQueue.Poll;
      inFlight := false;
      var wasCancelled := cancelled;
      cancelled := false;
      if wasCancelled {
        offered := Poll(input);
        return;
      }
      if !took { return None; }
      accepted := accepted + [events[0]];
      events := events[1..];
      offered := Poll(input);
    }

    method RunCommand(effect: Effect)
      modifies `events, `queued, `connection, `completed
      ensures View() == CommandEvents(old(View()), effect)
    {
      match effect {
        case Silent =>
        case Reports(masked) => QueueEvent(CommandEvent, masked);
        case Disconnects(masked) => DropLink(true, masked);
      }
    }

    /** A command from the host: its completion is inserted where the queue ended before it. */
    method Send(effect: Effect)
      modifies `events, `queued, `connection, `completed, `commandPending, `sendAvailable, `readyPending
      ensures View() == SendCommand(old(View()), effect)
    {
      ghost var more := CommandEventsAppend(View(), effect);
      hide CommandEvents;
      ghost var logged := |queued|;
      var eventIndex := |events|;
      RunCommand(effect);
      events := events[..eventIndex] + [Completion] + events[eventIndex..];
      queued := queued[..logged] + [Completion] + queued[logged..];
      commandPending := true;
      sendAvailable := false;
      readyPending := true;
    }

    method SendAclPacket(handle: nat)
      modifies this
      ensures View() == SendData(old(View()), handle)
    {
      if connection != 0 && handle == connection {
        completed := completed + 1;
        sent := sent + 1;
      }
      sendAvailable := false;
      readyPending := true;
    }

    /** Disabling forgets what was to be delivered; a callback still running is left alone, and marked. */
    method ForgetDelivery()
      modifies `events, `queued, `accepted, `cancelled, `readyPending, `commandPending, `sendAvailable
      ensures View() == old(View()).(events := [], queued := [], accepted := [],
                                     cancelled := inFlight, readyPending := false,
                                     commandPending := false, sendAvailable := true)
    {
      events := [];
      readyPending := false;
      commandPending := false;
      sendAvailable := true;
      cancelled := inFlight;
      queued := [];
      accepted := [];
    }

    method DisableController()
      modifies this
      ensures View() == Disable(old(View()))
    {
      enabled := false;
      DropEnds(View());
      hide Drop;
      DropLink(false, true);
      ForgetDelivery();
      completed := 0;
      registered := false;
    }
  }

  lemma {:induction false} DropEnds(c: Controller)
    ensures Drop(c, false, true).connection == 0
  {
  }

  lemma {:induction false} FirstDataPacket(acl: Acl, fragments: seq<Acl>)
    ensures DataPackets([acl] + fragments) == [Data(acl)] + DataPackets(fragments)
  {
  }
}
