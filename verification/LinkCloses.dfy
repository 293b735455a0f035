/**
  Closes of a connection attempt that has no generation yet: what they wait for, what answers them, and
  exactly when nothing does.
 */
module LinkCloses {
  import opened LinkProtocol
  import opened LinkSafety

  predicate HasConnected(q: seq<ToPeer>) {
    exists m :: m in q && m.Connected?
  }

  /** The peer waits for what becomes of a connection attempt, still wanting it or closing it. */
  predicate Awaits(p: Peer) {
    p.connecting || (p.closing && p.closingGeneration == 0)
  }

  /** An attempt or an answer to one is on the way. */
  predicate Outstanding(s: Link) {
    Connect in s.toController || HasConnected(s.toPeer) || Rejected(0) in s.toPeer
  }

  predicate Up(s: Link) {
    s.cOpen && s.pOpen
  }

  predicate Begins(s: Link, a: Action) {
    a.PeerConnects? && WantsConnection(s.p)
  }

  predicate TakesRejection(s: Link, a: Action) {
    a.PeerTakes? && s.pOpen && s.toPeer != [] && s.toPeer[0] == Rejected(0)
  }

  /** Since the peer last began an attempt, it has taken a rejection. */
  predicate RejectionTaken(start: Link, actions: seq<Action>) {
    actions != [] &&
    var before, a := Exec(start, actions[..|actions| - 1]), actions[|actions| - 1];
    !Begins(before, a) && (TakesRejection(before, a) || RejectionTaken(start, actions[..|actions| - 1]))
  }

  // ----- What a step does to an attempt -----

  lemma {:induction false} ConnectedStays(q: seq<ToPeer>, r: seq<ToPeer>)
    requires HasConnected(q)
    ensures HasConnected(q + r)
  {
    var m :| m in q && m.Connected?;
    assert m in q + r;
  }

  lemma {:induction false} ControllerSendsKeeps(s: Link, r: (Controller, seq<ToPeer>))
    requires Outstanding(s)
    ensures Outstanding(WithController(s, r))
  {
    if HasConnected(s.toPeer) { ConnectedStays(s.toPeer, r.1); }
  }

  lemma {:induction false} PeerSendsMore(s: Link, r: (Peer, seq<ToController>))
    requires Outstanding(s)
    ensures Outstanding(WithPeer(s, r))
  {
  }

  /** Taking an attempt puts its answer on the way. */
  lemma {:induction false} TakenIsAnswered(s: Link)
    requires Up(s) && Outstanding(s)
    ensures Outstanding(ControllerTakesNext(s))
  {
    if s.toController != [] {
      var taken := ControllerTook(s);
      if s.toController[0] == Connect {
        var m := ControllerReceive(s.c, Connect).1[0];
        assert m in ControllerTakesNext(s).toPeer;
      } else {
        ControllerSendsKeeps(taken, ControllerReceive(s.c, s.toController[0]));
      }
    }
  }

  lemma {:induction false} ControllerStepAwaits(s: Link, a: Action)
    requires Up(s) && ByController(a)
    ensures Next(s, a).p == s.p
    ensures Outstanding(s) ==> Outstanding(Next(s, a))
  {
    hide Outstanding, HasConnected;
    if Outstanding(s) {
      var c := s.c;
      match a {
        case ControllerTakes => TakenIsAnswered(s);
        case HostDisconnects => ControllerSendsKeeps(s, ControllerDisconnect(c));
        case HostResets => ControllerSendsKeeps(s, ControllerReset(c));
        case HostDisables => ControllerSendsKeeps(s, ControllerReset(c.(enabled := false)));
        case HostEnables =>
          ControllerSendsKeeps(s, (c.(enabled := true), []));
          assert s.toPeer + [] == s.toPeer;
        case HostAdvertises(on, data, connectable) =>
          ControllerSendsKeeps(s, (c.(advertising := on, connectable := connectable), [Advertising(on, data)]));
        case HostSends(sdu) =>
          SameChannels(s, s.(cSent := s.cSent + [(c.generation, sdu)]));
          ControllerSendsKeeps(s.(cSent := s.cSent + [(c.generation, sdu)]), (c, [Data(c.generation, sdu)]));
        case EncryptionFinishes(status) =>
          ControllerSendsKeeps(s,
            (c.(keyPending := false, encrypted := status == 0), [Encryption(c.generation, status)]));
        case HostPublishes(part) => ControllerSendsKeeps(s, (c, [GattDatabase(part)]));
      }
    }
  }

  lemma {:induction false} SameChannels(s: Link, t: Link)
    requires s.toPeer == t.toPeer && s.toController == t.toController && Outstanding(s)
    ensures Outstanding(t)
  {
  }

  lemma {:induction false} GivingUpAwaits(p: Peer)
    ensures Awaits(PeerDisconnect(p).0) ==> Awaits(p)
    ensures Awaits(PeerFail(p).0) ==> Awaits(p)
    ensures forall on :: Awaits(PeerSetEnabled(p, on).0) ==> Awaits(p)
  {
  }

  /** A message other than a connection or a rejection of the attempt leaves a peer waiting that was waiting before. */
  lemma {:induction false} ReceivingAwaits(p: Peer, m: ToPeer)
    requires PeerConsistent(p) && m != Connected(0)
    ensures Awaits(PeerReceive(p, m).0) ==> Awaits(p) && !m.Connected?
  {
    match m {
      case GattDatabase(_) => GivingUpAwaits(p);
      case Advertising(on, data) => GivingUpAwaits(p.(advertising := on, advertisement := data));
      case Rejected(_) => GivingUpAwaits(p);
      case _ =>
    }
  }

  lemma {:induction false} PeerTakesAwaits(s: Link)
    requires Inv(s) && Up(s) && Awaits(Next(s, PeerTakes).p)
    ensures Awaits(s.p)
    ensures Outstanding(s) && !TakesRejection(s, PeerTakes) ==> Outstanding(Next(s, PeerTakes))
  {
    hide Awaits, Outstanding, PeerReceive;
    if s.toPeer != [] {
      var m := s.toPeer[0];
      FirstFits(s);
      ReceivingAwaits(s.p, m);
      if Outstanding(s) && m != Rejected(0) {
        StillOutstanding(s);
        PeerSendsMore(PeerTook(s), PeerReceive(s.p, m));
      }
    }
  }

  lemma {:induction false} FirstFits(s: Link)
    requires Inv(s) && Up(s) && s.toPeer != []
    ensures PeerConsistent(s.p) && s.toPeer[0] != Connected(0)
  {
    assert Fits(s.cut, s.toPeer[0]);
  }

  lemma {:induction false} StillOutstanding(s: Link)
    requires s.toPeer != [] && Outstanding(s) && !s.toPeer[0].Connected? && s.toPeer[0] != Rejected(0)
    ensures Outstanding(PeerTook(s))
  {
    if HasConnected(s.toPeer) {
      var m :| m in s.toPeer && m.Connected?;
      assert m in s.toPeer[1..];
    }
  }

  /**
    Nobody but the peer, by beginning an attempt, starts to wait; and only a rejection taken ends what is on the way.
   */
  lemma {:induction false} PeerStepAwaits(s: Link, a: Action)
    requires Inv(s) && Up(s) && !ByController(a) && !ByTransport(a) && Up(Next(s, a)) && Awaits(Next(s, a).p)
    ensures Begins(s, a) ==> Outstanding(Next(s, a))
    ensures !Begins(s, a) ==> Awaits(s.p)
    ensures !Begins(s, a) && !TakesRejection(s, a) && Outstanding(s) ==> Outstanding(Next(s, a))
  {
    hide Inv, Awaits, Outstanding, PeerDisconnect, PeerFail, PeerSetEnabled;
    GivingUpAwaits(s.p);
    match a {
      case PeerConnects => Attempted(s);
      case PeerTakes => PeerTakesAwaits(s);
      case PeerFails => if Outstanding(s) { PeerSendsMore(s, PeerFail(s.p)); }
      case SetupTimesOut => if Outstanding(s) { PeerSendsMore(s, PeerFail(s.p)); }
      case UserDisconnects => if Outstanding(s) { PeerSendsMore(s, PeerDisconnect(s.p)); }
      case UserEnables(on) => if Outstanding(s) { PeerSendsMore(s, PeerSetEnabled(s.p, on)); }
      case _ => OthersAwait(s, a);
    }
  }

  lemma {:induction false} Attempted(s: Link)
    requires Up(s)
    ensures WantsConnection(s.p) ==> Outstanding(Next(s, PeerConnects))
    ensures !WantsConnection(s.p) ==> Next(s, PeerConnects) == s
  {
    assert Connect in s.toController + [Connect];
  }

  lemma {:induction false} OthersAwait(s: Link, a: Action)
    requires Up(s)
    requires a.UserStartsSession? || a.DiscoveryEnds? || a.PeerSends? || a.PeerAsksEncryption?
    ensures Awaits(Next(s, a).p) ==> Awaits(s.p)
    ensures Outstanding(s) ==> Outstanding(Next(s, a))
  {
    hide HasConnected;
  }

  lemma {:induction false} TransportAwaits(s: Link, a: Action)
    requires ByTransport(a) && Up(Next(s, a)) && Awaits(Next(s, a).p)
    ensures Up(s) && Next(s, a) == s
  {
  }

  lemma {:induction false} OnlyTransportOpens(s: Link, a: Action)
    requires !ByTransport(a) && Up(Next(s, a))
    ensures Up(s)
  {
    hide PeerReceive, ControllerReceive, PeerFail, PeerDisconnect, PeerSetEnabled, ControllerDisconnect,
      ControllerReset;
  }

  lemma {:induction false} AwaitedStep(start: Link, actions: seq<Action>)
    requires actions != []
    requires var before := Exec(start, actions[..|actions| - 1]);
      && Inv(before)
      && (Up(before) && Awaits(before.p) ==> Outstanding(before) || RejectionTaken(start, actions[..|actions| - 1]))
    ensures var s := Exec(start, actions);
      Up(s) && Awaits(s.p) ==> Outstanding(s) || RejectionTaken(start, actions)
  {
    var before, a, s := Exec(start, actions[..|actions| - 1]), actions[|actions| - 1], Exec(start, actions);
    assert s == Next(before, a);
    hide Next, Inv, Awaits, Outstanding, Up, Exec, ByController, ByTransport, TakesRejection;
    if Up(s) && Awaits(s.p) {
      if ByTransport(a) {
        TransportAwaits(before, a);
        NotBegun(before, a);
      } else {
        OnlyTransportOpens(before, a);
        if ByController(a) {
          ControllerStepAwaits(before, a);
          NotBegun(before, a);
        } else {
          PeerStepAwaits(before, a);
        }
      }
    }
  }

  lemma {:induction false} NotBegun(s: Link, a: Action)
    requires ByController(a) || ByTransport(a)
    ensures !Begins(s, a)
  {
  }

  lemma {:induction false} AttemptsAwaited(nextGeneration: nat, actions: seq<Action>)
    ensures var start := LinkProtocol.Start(nextGeneration);
      var s := Exec(start, actions);
      Up(s) && Awaits(s.p) ==> Outstanding(s) || RejectionTaken(start, actions)
  {
    hide Inv, Next, Outstanding, RejectionTaken;
    if actions != [] {
      RunKeeps(nextGeneration, actions[..|actions| - 1]);
      AttemptsAwaited(nextGeneration, actions[..|actions| - 1]);
      AwaitedStep(LinkProtocol.Start(nextGeneration), actions);
    }
  }

  // ----- Every run -----

  /**
    In every run with the transport up, a close without a generation has the attempt it gives up on the way, or an
    answer to one, until the peer has taken a rejection; and a connection the controller has made meanwhile is
    itself on the way, so the close is never of a connection the peer will not hear of.
   */
  lemma {:induction false} UnnamedCloseUnderway(nextGeneration: nat, actions: seq<Action>)
    ensures var start := LinkProtocol.Start(nextGeneration);
      var s := Exec(start, actions);
      Up(s) && s.p.closing && s.p.closingGeneration == 0 ==>
        && (Outstanding(s) || RejectionTaken(start, actions))
        && (s.c.connected ==> Connected(s.c.generation) in s.toPeer)
  {
    hide Inv, Outstanding, RejectionTaken, Next, Exec;
    AttemptsAwaited(nextGeneration, actions);
    RunKeeps(nextGeneration, actions);
    UnnamedMeansUnconnected(Exec(LinkProtocol.Start(nextGeneration), actions));
  }

  lemma {:induction false} UnnamedMeansUnconnected(s: Link)
    requires Inv(s)
    ensures Up(s) && s.p.closing && s.p.closingGeneration == 0 && s.c.connected ==>
      Connected(s.c.generation) in s.toPeer
  {
    if Up(s) && s.c.connected { HeldOrAnnounced(s.cut, s.toPeer); }
  }

  // ----- The attempt decides -----

  /** The controller accepts an attempt: it is not connected, its host is up, and it advertises connectably. */
  predicate Accepts(c: Controller) {
    !c.connected && c.advertising && c.enabled && c.connectable
  }

  /** A close without a generation that nothing on the way can end. */
  predicate Stalled(s: Link) {
    && Up(s)
    && s.p.closing
    && s.p.closingGeneration == 0
    && Connect !in s.toController
    && !HasConnected(s.toPeer)
    && Reset !in s.toPeer
  }

  /** The peer takes all that is on its channel. */
  function Drain(s: Link): Link
    decreases |s.toPeer|
  {
    if !s.pOpen || s.toPeer == [] then s else Drain(PeerTakesNext(s))
  }

  /**
    The attempt a close gives up, when the controller takes it: the controller answers with a connection exactly if
    it accepts, and the peer, come to that answer, closes the connection by its generation, which is answered. With
    nothing else on the way that could end the close, it stalls exactly if the controller does not accept.
   */
  lemma {:induction false} AttemptDecides(s: Link)
    requires Up(s) && s.p.closing && s.p.closingGeneration == 0 && PeerConsistent(s.p)
    requires s.toController != [] && s.toController[0] == Connect
    ensures var t, g := Next(s, ControllerTakes), s.c.nextGeneration + 1;
      && t.toPeer == s.toPeer + [if Accepts(s.c) then Connected(g) else Rejected(0)]
      && (Accepts(s.c) ==>
            && Drain(t).p.closing
            && Drain(t).p.closingGeneration == g
            && Disconnect(g) in Drain(t).toController)
      && (Connect !in s.toController[1..] && !HasConnected(s.toPeer) && Reset !in s.toPeer ==>
            (Stalled(t) <==> !Accepts(s.c)))
  {
    var t, g := Next(s, ControllerTakes), s.c.nextGeneration + 1;
    AttemptAnswered(s);
    hide Next, Drain, HasConnected;
    if Accepts(s.c) {
      assert t.toPeer[|t.toPeer| - 1] == Connected(g);
      DrainNames(t, g);
      LastConnects(t.toPeer);
    } else {
      RejectionConnectsNot(s.toPeer);
    }
  }

  lemma {:induction false} LastConnects(q: seq<ToPeer>)
    requires q != [] && q[|q| - 1].Connected?
    ensures HasConnected(q)
  {
    assert q[|q| - 1] in q;
  }

  lemma {:induction false} RejectionConnectsNot(q: seq<ToPeer>)
    ensures HasConnected(q + [Rejected(0)]) <==> HasConnected(q)
  {
    if HasConnected(q) { ConnectedStays(q, [Rejected(0)]); }
  }

  lemma {:induction false} AttemptAnswered(s: Link)
    requires Up(s) && s.toController != [] && s.toController[0] == Connect
    ensures var t, g := Next(s, ControllerTakes), s.c.nextGeneration + 1;
      && t.toPeer == s.toPeer + [if Accepts(s.c) then Connected(g) else Rejected(0)]
      && t.toController == s.toController[1..]
      && t.p == s.p
      && Up(t)
  {
  }

  lemma {:induction false} TakingNeverConnects(p: Peer, m: ToPeer)
    requires !p.connecting
    ensures !PeerReceive(p, m).0.connecting
  {
    match m {
      case GattDatabase(_) => GivingUpNeverConnects(p);
      case Advertising(on, data) => GivingUpNeverConnects(p.(advertising := on, advertisement := data));
      case Rejected(_) => GivingUpNeverConnects(p);
      case _ =>
    }
  }

  lemma {:induction false} GivingUpNeverConnects(p: Peer)
    requires !p.connecting
    ensures !PeerDisconnect(p).0.connecting
    ensures !PeerFail(p).0.connecting
    ensures forall data :: !PeerPublication(p, data).0.connecting
  {
  }

  /** However much comes before it, a connection the peer no longer wants is closed by its generation. */
  lemma {:induction false} DrainNames(s: Link, g: nat)
    requires Up(s) && !s.p.connecting && g != 0 && s.toPeer != [] && s.toPeer[|s.toPeer| - 1] == Connected(g)
    ensures Drain(s).p.closing
    ensures Drain(s).p.closingGeneration == g
    ensures Disconnect(g) in Drain(s).toController
    decreases |s.toPeer|
  {
    var t := PeerTakesNext(s);
    TakingNeverConnects(s.p, s.toPeer[0]);
    hide PeerReceive;
    if |s.toPeer| == 1 {
      Unwanted(s, g);
      assert Drain(t) == t;
    } else {
      DrainNames(t, g);
    }
  }

  lemma {:induction false} Unwanted(s: Link, g: nat)
    requires Up(s) && !s.p.connecting && g != 0 && s.toPeer == [Connected(g)]
    ensures var t := PeerTakesNext(s);
      && t.toPeer == []
      && t.p.closing
      && t.p.closingGeneration == g
      && Disconnect(g) in t.toController
  {
  }

  // ----- A stalled close stays -----

  /** The setup deadline, the transport's end, or a reset of the controller: all that ends a stalled close. */
  predicate EndsStall(a: Action) {
    || a.SetupTimesOut? || a.HostResets? || a.HostDisables?
    || a.ControllerCloses? || a.PeerCloses? || a.PeerRestarts?
  }

  lemma {:induction false} ControllerStall(s: Link, r: (Controller, seq<ToPeer>))
    requires Stalled(s) && forall m :: m in r.1 ==> !m.Connected? && !m.Reset?
    ensures Stalled(WithController(s, r))
  {
  }

  lemma {:induction false} PeerStall(s: Link, r: (Peer, seq<ToController>))
    requires Stalled(s) && r.0.closing && r.0.closingGeneration == 0 && Connect !in r.1
    ensures Stalled(WithPeer(s, r))
  {
  }

  lemma {:induction false} ClosingStays(p: Peer, m: ToPeer)
    requires p.closing && p.closingGeneration == 0 && p.generation == 0
    requires !m.Connected? && !m.Reset? && m != Disconnected(0)
    ensures PeerReceive(p, m).0.closing
    ensures PeerReceive(p, m).0.closingGeneration == 0
    ensures Connect !in PeerReceive(p, m).1
  {
    match m {
      case GattDatabase(part) => ClosingPublication(p, part);
      case Advertising(on, data) => ClosingGivesUp(p.(advertising := on, advertisement := data));
      case Rejected(_) => ClosingGivesUp(p);
      case _ =>
    }
  }

  /** A peer that is closing sends no request again, and goes on closing. */
  lemma {:induction false} ClosingGivesUp(p: Peer)
    requires p.closing && p.closingGeneration == 0
    ensures PeerDisconnect(p) == (p, [])
    ensures PeerFail(p).0.closing && PeerFail(p).0.closingGeneration == 0 && PeerFail(p).1 == []
  {
  }

  lemma {:induction false} ClosingPublication(p: Peer, part: Publication)
    requires p.closing && p.closingGeneration == 0
    ensures PeerPublication(p, part).0.closing
    ensures PeerPublication(p, part).0.closingGeneration == 0
    ensures PeerPublication(p, part).1 == []
  {
    ClosingGivesUp(p);
    hide PeerDisconnect, PeerFail;
  }

  lemma {:induction false} ControllerStallStays(s: Link, a: Action)
    requires Stalled(s) && ByController(a) && !EndsStall(a)
    ensures Stalled(Next(s, a))
  {
    var c := s.c;
    assert s.toPeer + [] == s.toPeer;
    hide Stalled;
    match a {
      case ControllerTakes => TakingStalls(s);
      case HostDisconnects => ControllerStall(s, ControllerDisconnect(c));
      case HostEnables => ControllerStall(s, (c.(enabled := true), []));
      case HostAdvertises(on, data, connectable) =>
        ControllerStall(s, (c.(advertising := on, connectable := connectable), [Advertising(on, data)]));
      case HostSends(sdu) =>
        var t := s.(cSent := if Up(s) then s.cSent + [(c.generation, sdu)] else s.cSent);
        SameStall(s, t);
        ControllerStall(t, (c, [Data(c.generation, sdu)]));
      case EncryptionFinishes(status) =>
        ControllerStall(s, (c.(keyPending := false, encrypted := status == 0), [Encryption(c.generation, status)]));
      case HostPublishes(part) => ControllerStall(s, (c, [GattDatabase(part)]));
    }
  }

  lemma {:induction false} SameStall(s: Link, t: Link)
    requires Stalled(s) && t.p == s.p && t.cOpen == s.cOpen && t.pOpen == s.pOpen
    requires t.toPeer == s.toPeer && t.toController == s.toController
    ensures Stalled(t)
  {
  }

  lemma {:induction false} TakingStalls(s: Link)
    requires Stalled(s)
    ensures Stalled(ControllerTakesNext(s))
  {
    if s.toController != [] {
      var m := s.toController[0];
      assert m in s.toController;
      ControllerStall(ControllerTook(s), ControllerReceive(s.c, m));
    }
  }

  lemma {:induction false} PeerTakingStalls(s: Link)
    requires Inv(s) && Stalled(s)
    ensures Stalled(PeerTakesNext(s))
  {
    if s.toPeer != [] {
      var m := s.toPeer[0];
      assert m in s.toPeer && Fits(s.cut, m);
      ClosingStays(s.p, m);
      hide PeerReceive;
      assert Stalled(PeerTook(s));
      PeerStall(PeerTook(s), PeerReceive(s.p, m));
    }
  }

  lemma {:induction false} StallStep(s: Link, a: Action)
    requires Inv(s) && Stalled(s) && !EndsStall(a)
    ensures Stalled(Next(s, a))
  {
    if ByController(a) {
      ControllerStallStays(s, a);
    } else if a.PeerTakes? {
      PeerTakingStalls(s);
    } else {
      PeerStallStays(s, a);
    }
  }

  lemma {:induction false} PeerStallStays(s: Link, a: Action)
    requires Stalled(s) && PeerConsistent(s.p) && !ByController(a) && !a.PeerTakes? && !EndsStall(a)
    ensures Stalled(Next(s, a))
  {
    hide HasConnected;
  }

  /** Once nothing on the way can end it, a close without a generation stays until one of those events. */
  lemma {:induction false} StalledStays(nextGeneration: nat, actions: seq<Action>, more: seq<Action>)
    requires Stalled(Exec(LinkProtocol.Start(nextGeneration), actions))
    requires forall a :: a in more ==> !EndsStall(a)
    ensures Stalled(Exec(LinkProtocol.Start(nextGeneration), actions + more))
    ensures !Exec(LinkProtocol.Start(nextGeneration), actions + more).c.connected
    decreases |more|
  {
    hide Inv, Next, Exec, Stalled;
    var start := LinkProtocol.Start(nextGeneration);
    if more == [] {
      assert actions + more == actions;
    } else {
      var shorter, a := more[..|more| - 1], more[|more| - 1];
      assert a in more && more == shorter + [a];
      StalledStays(nextGeneration, actions, shorter);
      RunKeeps(nextGeneration, actions + shorter);
      StallStep(Exec(start, actions + shorter), a);
      assert actions + more == actions + shorter + [a];
      ExecOneMore(start, actions + shorter, a);
    }
    RunKeeps(nextGeneration, actions + more);
    StalledUnconnected(Exec(start, actions + more));
  }

  lemma {:induction false} ExecOneMore(s: Link, actions: seq<Action>, a: Action)
    ensures Exec(s, actions + [a]) == Next(Exec(s, actions), a)
  {
    hide Next;
    assert (actions + [a])[..|actions|] == actions;
  }

  lemma {:induction false} StalledUnconnected(s: Link)
    requires Inv(s) && Stalled(s)
    ensures !s.c.connected
  {
    UnnamedMeansUnconnected(s);
  }

  /** A run that comes to such a close: both channels are empty after the controller has rejected the attempt. */
  lemma {:induction false} UnnamedCloseCanStall()
    ensures exists actions :: Stalled(Exec(LinkProtocol.Start(0), actions))
  {
    var offered := Offered();
    var end := GivenUp(offered);
    ExecAppend(LinkProtocol.Start(0), OFFER, GIVE_UP);
  }

  const OFFER: seq<Action> :=
    [HostEnables, HostAdvertises(true, 1, false), PeerTakes, HostPublishes(Complete(1)), PeerTakes]
  const GIVE_UP: seq<Action> := [UserStartsSession, PeerConnects, UserDisconnects, ControllerTakes, PeerTakes]

  /** An advertisement the controller will not let anyone connect to, and its catalog. */
  lemma {:induction false} Offered() returns (s: Link)
    ensures s == Exec(LinkProtocol.Start(0), OFFER)
    ensures s.pOpen
    ensures s.cOpen
    ensures s.toPeer == []
    ensures s.toController == []
    ensures Available(s.p)
    ensures s.p.advertising
    ensures s.p.generation == 0
    ensures !s.p.connecting
    ensures !s.c.connected
    ensures !s.c.connectable
  {
    var s0 := LinkProtocol.Start(0);
    var s1 := Next(s0, OFFER[0]);
    var s2 := Next(s1, OFFER[1]);
    assert s2 == s0.(c := s0.c.(enabled := true, advertising := true, connectable := false),
      toPeer := [Advertising(true, 1)]);
    var s3 := Next(s2, OFFER[2]);
    assert s3 == s2.(p := s2.p.(advertising := true, advertisement := 1), toPeer := []) by { FirstOffer(s2); }
    var s4 := Next(s3, OFFER[3]);
    assert s4 == s3.(toPeer := [GattDatabase(Complete(1))]);
    s := Next(s4, OFFER[4]);
    assert s == s4.(p := s4.p.(catalogReady := true, catalog := 1), toPeer := []) by { FirstCatalog(s4); }
    ExecIsStepwise(s0, OFFER, s1, s2, s3, s4, s);
  }

  lemma {:induction false} FirstOffer(s: Link)
    requires s.pOpen && s.cOpen && s.toPeer == [Advertising(true, 1)] && s.toController == [] && !s.p.catalogReady
    ensures Next(s, PeerTakes) == s.(p := s.p.(advertising := true, advertisement := 1), toPeer := [])
  {
  }

  lemma {:induction false} FirstCatalog(s: Link)
    requires s.pOpen && s.cOpen && s.toPeer == [GattDatabase(Complete(1))] && s.toController == [] && !s.p.catalogReady
    requires !s.p.closing && s.p.generation == 0 && !s.p.connecting && !s.p.ready && !s.p.sessionRequested
    requires s.p.closingGeneration == 0
    ensures Next(s, PeerTakes) == s.(p := s.p.(catalogReady := true, catalog := 1), toPeer := [])
  {
  }

  lemma {:induction false} GivenUp(s: Link) returns (t: Link)
    requires Up(s) && s.toPeer == [] && s.toController == []
    requires Available(s.p) && s.p.advertising && s.p.generation == 0 && !s.p.connecting
    requires !s.c.connected && !s.c.connectable
    ensures t == Exec(s, GIVE_UP)
    ensures Stalled(t)
  {
    var s1 := Next(s, GIVE_UP[0]);
    var s2 := Next(s1, GIVE_UP[1]);
    var s3 := Next(s2, GIVE_UP[2]);
    var s4 := Next(s3, GIVE_UP[3]);
    t := Next(s4, GIVE_UP[4]);
    Attempting(s);
    hide Next, Exec, Stalled, Available;
    AttemptGivenUp(s2);
    AttemptRejected(s3);
    ExecIsStepwise(s, GIVE_UP, s1, s2, s3, s4, t);
  }

  lemma {:induction false} Attempting(s: Link)
    requires Up(s) && s.toPeer == [] && s.toController == []
    requires Available(s.p) && s.p.advertising && s.p.generation == 0 && !s.p.connecting
    ensures var t := Next(Next(s, UserStartsSession), PeerConnects);
      t == s.(p := s.p.(sessionRequested := true, connecting := true), toController := [Connect])
  {
  }

  lemma {:induction false} AttemptGivenUp(s: Link)
    requires Up(s) && s.p.generation == 0 && s.p.connecting && !s.p.closing
    ensures var t := Next(s, UserDisconnects);
      && t.p.closing
      && t.p.closingGeneration == 0
      && t.c == s.c
      && t.toPeer == s.toPeer
      && t.toController == s.toController
      && Up(t)
  {
  }

  lemma {:induction false} AttemptRejected(s: Link)
    requires Up(s) && s.p.closing && s.p.closingGeneration == 0 && s.toPeer == [] && s.toController == [Connect]
    requires !Accepts(s.c)
    ensures Stalled(Next(Next(s, ControllerTakes), PeerTakes))
  {
    var t := Next(s, ControllerTakes);
    assert t == s.(toController := [], toPeer := [Rejected(0)]);
    ClosingGivesUp(s.p);
  }

  lemma {:induction false} ExecIsStepwise(s: Link, a: seq<Action>, s1: Link, s2: Link, s3: Link, s4: Link, s5: Link)
    requires |a| == 5
    requires s1 == Next(s, a[0]) && s2 == Next(s1, a[1]) && s3 == Next(s2, a[2])
    requires s4 == Next(s3, a[3]) && s5 == Next(s4, a[4])
    ensures Exec(s, a) == s5
  {
    hide Next;
    assert a[..5][..4] == a[..4] && a[..4][..3] == a[..3] && a[..3][..2] == a[..2];
    assert a[..2][..1] == a[..1] && a[..1][..0] == [];
    assert a[..5] == a;
    assert Exec(s, a[..1]) == s1;
    assert Exec(s, a[..2]) == s2;
    assert Exec(s, a[..3]) == s3;
    assert Exec(s, a[..4]) == s4;
  }

  lemma {:induction false} ExecAppend(s: Link, a: seq<Action>, b: seq<Action>)
    ensures Exec(s, a + b) == Exec(Exec(s, a), b)
  {
    hide Next;
    if b == [] {
      assert a + b == a;
    } else {
      ExecAppend(s, a, b[..|b| - 1]);
      assert (a + b)[..|a + b| - 1] == a + b[..|b| - 1];
    }
  }
}
