/** The two ends of the link as the objects they are, their fields updated step by step. */
module LinkEnds {
  import opened Bits
  import opened LinkProtocol

  class BleController {
    var enabled: bool
    var advertising: bool
    var connectable: bool
    var connected: bool
    var generation: nat
    var nextGeneration: nat
    var encrypted: bool
    var keyPending: bool
    var sent: seq<ToPeer>
    var passed: seq<(nat, Sdu)>

    function View(): Controller
      reads this
    {
      Controller(enabled, advertising, connectable, connected, generation, nextGeneration, encrypted, keyPending)
    }

    constructor (nextGeneration: nat)
      ensures View() == FreshController(nextGeneration) && sent == [] && passed == []
    {
      enabled, advertising, connectable, connected := false, false, true, false;
      generation, this.nextGeneration := 0, nextGeneration;
      encrypted, keyPending := false, false;
      sent, passed := [], [];
    }

    method Send(message: ToPeer)
      modifies `sent
      ensures sent == old(sent) + [message]
    {
      sent := sent + [message];
    }

    method Disconnect()
      modifies this
      ensures View() == ControllerDisconnect(old(View())).0
      ensures sent == old(sent) + ControllerDisconnect(old(View())).1
      ensures passed == old(passed)
    {
      if !connected { return; }
      Send(Disconnected(generation));
      connected := false;
      encrypted := false;
      keyPending := false;
    }

    method ResetHci()
      modifies this
      ensures View() == ControllerReset(old(View())).0
      ensures sent == old(sent) + ControllerReset(old(View())).1
      ensures passed == old(passed)
    {
      if connected { Disconnect(); }
      advertising := false;
      connectable := true;
      Send(Reset);
    }

    method PeerMessage(message: ToController)
      modifies this
      ensures View() == ControllerReact(old(View()), message).0
      ensures sent == old(sent) + ControllerReact(old(View()), message).1
      ensures passed == old(passed) + ControllerReact(old(View()), message).2
    {
      if !message.Connect? && (!connected || message.g != generation) {
        Send(Rejected(message.g));
        return;
      }
      match message {
        case Connect =>
          if connected || !advertising || !enabled || !connectable {
            Send(Rejected(0));
            return;
          }
          nextGeneration := nextGeneration + 1;
          generation := nextGeneration;
          connected := true;
          advertising := false;
          encrypted := false;
          keyPending := false;
          Send(Connected(generation));
        case Disconnect(_) =>
          Disconnect();
        case L2cap(g, sdu) =>
          passed := passed + [(g, sdu)];
        case Encrypt(g) =>
          if keyPending || encrypted {
            Send(Rejected(g));
            return;
          }
          keyPending := true;
      }
    }
  }

  class VirtualPeer {
    var enabled: bool
    var failed: bool
    var advertising: bool
    var advertisement: int
    var connecting: bool
    var closing: bool
    var ready: bool
    var sessionRequested: bool
    var generation: nat
    var closingGeneration: nat
    var catalogReady: bool
    var catalog: int
    var sent: seq<ToController>
    var passed: seq<(nat, Sdu)>

    function View(): Peer
      reads this
    {
      Peer(enabled, failed, advertising, advertisement, connecting, closing, ready, sessionRequested,
           generation, closingGeneration, catalogReady, catalog)
    }

    constructor ()
      ensures View() == LinkProtocol.Start(0).p && sent == [] && passed == []
    {
      enabled, failed, advertising, advertisement := true, false, false, 0;
      connecting, closing, ready, sessionRequested := false, false, false, false;
      generation, closingGeneration, catalogReady, catalog := 0, 0, false, 0;
      sent, passed := [], [];
    }

    method Send(message: ToController)
      modifies `sent
      ensures sent == old(sent) + [message]
    {
      sent := sent + [message];
    }

    method InvalidateCatalog()
      modifies `catalogReady
      ensures View() == Invalidate(old(View()))
    {
      catalogReady := false;
    }

    method ClearTheLink()
      modifies `generation, `connecting, `ready, `sessionRequested
      ensures View() == ClearLink(old(View()))
    {
      generation := 0;
      connecting, ready, sessionRequested := false, false, false;
    }

    method Disconnect()
      modifies this
      ensures View() == PeerDisconnect(old(View())).0
      ensures sent == old(sent) + PeerDisconnect(old(View())).1
      ensures passed == old(passed)
    {
      if closing { return; }
      closing := generation != 0 || connecting;
      closingGeneration := generation;
      if generation != 0 { Send(ToController.Disconnect(generation)); }
      ClearTheLink();
    }

    /** What the polling loop does with an exception before any close is overdue. */
    method Fail()
      modifies this
      ensures View() == PeerFail(old(View())).0
      ensures sent == old(sent) + PeerFail(old(View())).1
      ensures passed == old(passed)
    {
      failed := true;
      Disconnect();
      InvalidateCatalog();
    }

    /** The polling loop finds the socket gone. */
    method Forget()
      modifies this
      ensures View() == PeerForget(old(View())) && sent == old(sent) && passed == old(passed)
    {
      advertising, closing := false, false;
      closingGeneration := 0;
      ClearTheLink();
      InvalidateCatalog();
    }

    method SetEnabled(on: bool)
      modifies this
      ensures View() == PeerSetEnabled(old(View()), on).0
      ensures sent == old(sent) + PeerSetEnabled(old(View()), on).1
    {
      if on == enabled { return; }
      enabled := on;
      if on { failed := false; } else { Disconnect(); }
    }

    method StartSession() returns (started: bool)
      modifies `sessionRequested
      ensures started == Available(old(View()))
      ensures View() == if started then old(View()).(sessionRequested := true) else old(View())
    {
      if !Available(View()) { return false; }
      sessionRequested := true;
      return true;
    }

    /** The connection attempt at the end of a poll. */
    method ConnectIfWanted()
      modifies this
      ensures View() == if WantsConnection(old(View())) then old(View()).(connecting := true) else old(View())
      ensures sent == if WantsConnection(old(View())) then old(sent) + [Connect] else old(sent)
    {
      if enabled && !failed && advertising && generation == 0 && !connecting && !closing && sessionRequested {
        connecting := true;
        Send(Connect);
      }
    }

    method TakeAdvertisement(on: bool, data: int)
      modifies this
      ensures View() == PeerAdvertisement(old(View()), on, data).0
      ensures sent == old(sent) + PeerAdvertisement(old(View()), on, data).1
      ensures passed == old(passed)
    {
      advertising := on;
      var changed := data != advertisement;
      advertisement := data;
      if (catalogReady && changed) || (!advertising && generation == 0 && !connecting && !closing) {
        Disconnect();
        InvalidateCatalog();
      }
    }

    method TakePublication(part: Publication)
      modifies this
      ensures View() == PeerPublication(old(View()), part).0
      ensures sent == old(sent) + PeerPublication(old(View()), part).1
      ensures passed == old(passed)
    {
      match part {
        case Chunk =>
        case Unusable =>
          Fail();
        case Complete(published) =>
          if !catalogReady || published != catalog {
            Disconnect();
            InvalidateCatalog();
            catalog := published;
            catalogReady := true;
          }
      }
    }

    method TakeConnected(g: nat)
      modifies this
      ensures View() == PeerReact(old(View()), Connected(g)).0
      ensures sent == old(sent) + PeerReact(old(View()), Connected(g)).1
      ensures passed == old(passed)
    {
      if g == 0 {
        Fail();
        return;
      }
      if !connecting || !enabled {
        closing := true;
        closingGeneration := g;
        Send(ToController.Disconnect(g));
        return;
      }
      generation := g;
      connecting := false;
      advertising := false;
    }

    /** A message of the link itself: a lost link, data, or the outcome of encryption. */
    method TakeSessionMessage(message: ToPeer)
      requires message.Disconnected? || message.Data? || message.Encryption?
      modifies this
      ensures View() == PeerReact(old(View()), message).0
      ensures sent == old(sent) + PeerReact(old(View()), message).1
      ensures passed == old(passed) + PeerReact(old(View()), message).2
    {
      if message.Disconnected? && closing && message.g == closingGeneration {
        closing := false;
        closingGeneration := 0;
        return;
      }
      if message.g != generation || generation == 0 { return; }
      if message.Disconnected? { ClearTheLink(); }
      if message.Data? { passed := passed + [(message.g, message.sdu)]; }
    }

    method Receive(message: ToPeer)
      modifies this
      ensures View() == PeerReact(old(View()), message).0
      ensures sent == old(sent) + PeerReact(old(View()), message).1
      ensures passed == old(passed) + PeerReact(old(View()), message).2
    {
      if message.GattDatabase? {
        TakePublication(message.part);
        return;
      }
      if message.Reset? {
        failed := false;
        Forget();
        return;
      }
      if message.Advertising? {
        TakeAdvertisement(message.on, message.data);
        return;
      }
      if message.Connected? {
        TakeConnected(message.g);
        return;
      }
      if message.Rejected? {
        if message.g != 0 && message.g != generation { return; }
        Fail();
        return;
      }
      TakeSessionMessage(message);
    }
  }
}
