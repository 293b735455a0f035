/** What goes on inside a session: data is passed up and never answered, and only a message out of place is refused. */
module LinkData {
  import opened LinkProtocol
  import opened LinkSafety

  // ----- Data of the session -----

  /** Data of the generation the controller is connected on goes to its host; nothing is answered or changed. */
  lemma {:induction false} ControllerTakesData(s: Link, sdu: Sdu)
    requires s.cOpen && s.c.connected && s.toController != [] && s.toController[0] == L2cap(s.c.generation, sdu)
    ensures Next(s, ControllerTakes) ==
      s.(toController := s.toController[1..], cGot := s.cGot + [(s.c.generation, sdu)])
  {
    assert s.toPeer + [] == s.toPeer;
  }

  /** Data of the generation the peer holds goes to its upper layers; nothing is answered or changed. */
  lemma {:induction false} PeerTakesData(s: Link, sdu: Sdu)
    requires s.pOpen && s.p.generation != 0 && s.toPeer != [] && s.toPeer[0] == Data(s.p.generation, sdu)
    ensures Next(s, PeerTakes) ==
      s.(toPeer := s.toPeer[1..], cut := s.cut, pGot := s.pGot + [(s.p.generation, sdu)])
  {
    assert s.toController + [] == s.toController;
  }

  // ----- Refusals -----

  /** The message is not for the connection the controller is on, or asks for encryption that is up or under way. */
  predicate OutOfPlace(c: Controller, m: ToController)
    requires !m.Connect?
  {
    || !c.connected
    || m.g != c.generation
    || (m.Encrypt? && (c.keyPending || c.encrypted))
  }

  /** A refusal that names a generation only answers a message out of place, and every such message gets one. */
  lemma {:induction false} RefusedExactly(s: Link)
    requires s.cOpen && s.pOpen && s.toController != [] && !s.toController[0].Connect?
    ensures var m, t := s.toController[0], Next(s, ControllerTakes);
      && (OutOfPlace(s.c, m) ==> t.toPeer == s.toPeer + [Rejected(m.g)] && t.c == s.c)
      && (!OutOfPlace(s.c, m) && m.L2cap? ==> t.toPeer == s.toPeer && t.c == s.c)
      && (!OutOfPlace(s.c, m) && m.Encrypt? ==> t.toPeer == s.toPeer && t.c == s.c.(keyPending := true))
      && (!OutOfPlace(s.c, m) && m.Disconnect? ==>
            t.toPeer == s.toPeer + [Disconnected(m.g)] && Conn(t.c) == 0)
  {
    assert s.toPeer + [] == s.toPeer;
  }

  lemma {:induction false} Suffix(q: seq<ToPeer>, out: seq<ToPeer>, more: seq<ToPeer>)
    requires q + out == q + more
    ensures out == more
  {
    assert (q + out)[|q|..] == out && (q + more)[|q|..] == more;
  }

  predicate NoRefusal(out: seq<ToPeer>) {
    forall m :: m in out && m.Rejected? ==> m.g == 0
  }

  /** What an action other than the controller's taking a message can send to the peer. */
  lemma {:induction false} OthersRefuseNothing(s: Link, a: Action, out: seq<ToPeer>)
    requires !a.ControllerTakes? && Next(s, a).toPeer == s.toPeer + out
    ensures NoRefusal(out)
  {
    hide PeerReact, PeerFail, PeerDisconnect, PeerSetEnabled, WantsConnection, Available;
    match a {
      case HostDisconnects => Sends(s, ControllerDisconnect(s.c).1, out);
      case HostResets => Sends(s, ControllerReset(s.c).1, out);
      case HostDisables => Sends(s, ControllerReset(s.c.(enabled := false)).1, out);
      case HostAdvertises(on, data, _) => Sends(s, if s.c.connected && on then [] else [Advertising(on, data)], out);
      case HostSends(sdu) => Sends(s, if s.c.connected then [Data(s.c.generation, sdu)] else [], out);
      case EncryptionFinishes(status) =>
        Sends(s, if s.c.keyPending && s.c.connected then [Encryption(s.c.generation, status)] else [], out);
      case HostPublishes(part) => Sends(s, [GattDatabase(part)], out);
      case HostEnables => Sends(s, [], out) by { assert s.toPeer + [] == s.toPeer; }
      case _ => NothingMore(s, a, out);
    }
  }

  lemma {:induction false} Sends(s: Link, more: seq<ToPeer>, out: seq<ToPeer>)
    requires NoRefusal(more)
    requires s.toPeer + out == (if s.cOpen && s.pOpen then s.toPeer + more else s.toPeer)
    ensures NoRefusal(out)
  {
    assert s.toPeer + [] == s.toPeer;
    Suffix(s.toPeer, out, if s.cOpen && s.pOpen then more else []);
  }

  lemma {:induction false} NothingMore(s: Link, a: Action, out: seq<ToPeer>)
    requires Next(s, a).toPeer == s.toPeer + out
    requires !ByController(a)
    ensures out == []
  {
    hide PeerReact, PeerFail, PeerDisconnect, PeerSetEnabled, WantsConnection, Available, PeerForget;
    assert |Next(s, a).toPeer| <= |s.toPeer|;
  }

  lemma {:induction false} ReceivingRefuses(c: Controller, m: ToController, g: nat)
    requires Rejected(g) in ControllerReceive(c, m).1 && g != 0
    ensures !m.Connect? && m.g == g && OutOfPlace(c, m)
  {
  }

  /**
    In every state, so in every run: a refusal that names a generation enters the channel to the peer only when the
    controller takes a message of that number which is of another connection than its own, or asks for encryption that
    is up or under way.
   */
  lemma {:induction false} RefusalHasReason(s: Link, a: Action, out: seq<ToPeer>, g: nat)
    requires Next(s, a).toPeer == s.toPeer + out && Rejected(g) in out && g != 0
    ensures a == ControllerTakes && s.toController != []
    ensures var m := s.toController[0]; !m.Connect? && m.g == g && OutOfPlace(s.c, m)
  {
    if a != ControllerTakes {
      OthersRefuseNothing(s, a, out);
    } else {
      hide ControllerReact;
      assert s.toPeer + [] == s.toPeer;
      if s.cOpen && s.toController != [] && s.pOpen {
        Suffix(s.toPeer, out, ControllerReceive(s.c, s.toController[0]).1);
        ReceivingRefuses(s.c, s.toController[0], g);
      } else {
        Suffix(s.toPeer, out, []);
      }
    }
  }

  // ----- A session that carries data -----

  /** Both ends hold `g`, and the channels carry only data of it. */
  predicate InSession(s: Link, g: nat) {
    && s.cOpen && s.pOpen && g != 0
    && s.c.connected && s.c.generation == g && s.p.generation == g
    && (forall m :: m in s.toPeer ==> m.Data? && m.g == g)
    && (forall m :: m in s.toController ==> m.L2cap? && m.g == g)
  }

  predicate CarriesData(a: Action) {
    a.ControllerTakes? || a.PeerTakes? || a.HostSends? || a.PeerSends?
  }

  function Upward(q: seq<ToController>): seq<(nat, Sdu)>
    requires forall m :: m in q ==> m.L2cap?
  {
    if q == [] then [] else [(q[0].g, q[0].sdu)] + Upward(q[1..])
  }

  function Downward(q: seq<ToPeer>): seq<(nat, Sdu)>
    requires forall m :: m in q ==> m.Data?
  {
    if q == [] then [] else [(q[0].g, q[0].sdu)] + Downward(q[1..])
  }

  lemma {:induction false} UpwardAppend(q: seq<ToController>, m: ToController)
    requires (forall n :: n in q ==> n.L2cap?) && m.L2cap?
    ensures Upward(q + [m]) == Upward(q) + [(m.g, m.sdu)]
  {
    if q == [] {
      assert q + [m] == [m] && [m][1..] == [];
    } else {
      UpwardAppend(q[1..], m);
      assert (q + [m])[1..] == q[1..] + [m];
    }
  }

  lemma {:induction false} DownwardAppend(q: seq<ToPeer>, m: ToPeer)
    requires (forall n :: n in q ==> n.Data?) && m.Data?
    ensures Downward(q + [m]) == Downward(q) + [(m.g, m.sdu)]
  {
    if q == [] {
      assert q + [m] == [m] && [m][1..] == [];
    } else {
      DownwardAppend(q[1..], m);
      assert (q + [m])[1..] == q[1..] + [m];
    }
  }

  /** From `s` to `t` both ends are unchanged, and data has only moved on: nothing is lost, added or reordered. */
  predicate Moved(s: Link, t: Link, g: nat)
    requires InSession(s, g)
  {
    && InSession(t, g)
    && t.c == s.c
    && t.p == s.p
    && s.pSent <= t.pSent
    && s.cSent <= t.cSent
    && t.cGot + Upward(t.toController) == s.cGot + Upward(s.toController) + t.pSent[|s.pSent|..]
    && t.pGot + Downward(t.toPeer) == s.pGot + Downward(s.toPeer) + t.cSent[|s.cSent|..]
  }

  lemma {:induction false} Steady(s: Link, g: nat)
    requires InSession(s, g)
    ensures Moved(s, s, g)
  {
    assert s.cGot + Upward(s.toController) + [] == s.cGot + Upward(s.toController);
    assert s.pGot + Downward(s.toPeer) + [] == s.pGot + Downward(s.toPeer);
  }

  lemma {:induction false} MovedTwice(s: Link, t: Link, u: Link, g: nat)
    requires InSession(s, g) && Moved(s, t, g) && Moved(t, u, g)
    ensures Moved(s, u, g)
  {
    hide Upward, Downward;
    var a, b := t.pSent[|s.pSent|..], u.pSent[|t.pSent|..];
    assert u.pSent[|s.pSent|..] == a + b;
    assert s.cGot + Upward(s.toController) + a + b == s.cGot + Upward(s.toController) + (a + b);
    var d, e := t.cSent[|s.cSent|..], u.cSent[|t.cSent|..];
    assert u.cSent[|s.cSent|..] == d + e;
    assert s.pGot + Downward(s.toPeer) + d + e == s.pGot + Downward(s.toPeer) + (d + e);
  }

  lemma {:induction false} DataGoesUp(s: Link, g: nat)
    requires InSession(s, g) && s.toController != []
    ensures Moved(s, Next(s, ControllerTakes), g)
  {
    var m := s.toController[0];
    assert m in s.toController;
    ControllerTakesData(s, m.sdu);
    hide ControllerReact, Downward;
    var t := Next(s, ControllerTakes);
    assert forall n :: n in t.toController ==> n in s.toController;
    assert s.cGot + ([(m.g, m.sdu)] + Upward(t.toController)) == s.cGot + [(m.g, m.sdu)] + Upward(t.toController);
    assert s.cGot + Upward(s.toController) + [] == s.cGot + Upward(s.toController);
    assert s.pGot + Downward(s.toPeer) + [] == s.pGot + Downward(s.toPeer);
  }

  lemma {:induction false} DataGoesDown(s: Link, g: nat)
    requires InSession(s, g) && s.toPeer != []
    ensures Moved(s, Next(s, PeerTakes), g)
  {
    var m := s.toPeer[0];
    assert m in s.toPeer;
    PeerTakesData(s, m.sdu);
    hide PeerReact, Upward;
    var t := Next(s, PeerTakes);
    assert forall n :: n in t.toPeer ==> n in s.toPeer;
    assert s.pGot + ([(m.g, m.sdu)] + Downward(t.toPeer)) == s.pGot + [(m.g, m.sdu)] + Downward(t.toPeer);
    assert s.pGot + Downward(s.toPeer) + [] == s.pGot + Downward(s.toPeer);
    assert s.cGot + Upward(s.toController) + [] == s.cGot + Upward(s.toController);
  }

  lemma {:induction false} HostDataQueued(s: Link, g: nat, sdu: Sdu)
    requires InSession(s, g)
    ensures Moved(s, Next(s, HostSends(sdu)), g)
  {
    var t := Next(s, HostSends(sdu));
    DownwardAppend(s.toPeer, Data(g, sdu));
    hide Upward, Downward;
    assert t.cSent[|s.cSent|..] == [(g, sdu)];
    assert s.pGot + (Downward(s.toPeer) + [(g, sdu)]) == s.pGot + Downward(s.toPeer) + [(g, sdu)];
    assert s.cGot + Upward(s.toController) + [] == s.cGot + Upward(s.toController);
  }

  lemma {:induction false} PeerDataQueued(s: Link, g: nat, sdu: Sdu)
    requires InSession(s, g)
    ensures Moved(s, Next(s, PeerSends(sdu)), g)
  {
    var t := Next(s, PeerSends(sdu));
    UpwardAppend(s.toController, L2cap(g, sdu));
    hide Upward, Downward;
    assert t.pSent[|s.pSent|..] == [(g, sdu)];
    assert s.cGot + (Upward(s.toController) + [(g, sdu)]) == s.cGot + Upward(s.toController) + [(g, sdu)];
    assert s.pGot + Downward(s.toPeer) + [] == s.pGot + Downward(s.toPeer);
  }

  /**
    However sending and taking interleave, a session that carries only data stays as it is at both ends, and every SDU
    is handed up once, in order: what has arrived and what is on the way is what was there and what was sent.
   */
  lemma {:induction false} SessionCarriesData(s: Link, g: nat, actions: seq<Action>)
    requires InSession(s, g) && forall a :: a in actions ==> CarriesData(a)
    ensures Moved(s, Exec(s, actions), g)
  {
    hide Next, Moved, InSession;
    if actions == [] {
      Steady(s, g);
    } else {
      var before, a := Exec(s, actions[..|actions| - 1]), actions[|actions| - 1];
      SessionCarriesData(s, g, actions[..|actions| - 1]);
      StillInSession(s, before, g);
      assert a in actions;
      DataStep(before, g, a);
      MovedTwice(s, before, Next(before, a), g);
    }
  }

  lemma {:induction false} StillInSession(s: Link, t: Link, g: nat)
    requires InSession(s, g) && Moved(s, t, g)
    ensures InSession(t, g)
  {
  }

  lemma {:induction false} DataStep(s: Link, g: nat, a: Action)
    requires InSession(s, g) && CarriesData(a)
    ensures Moved(s, Next(s, a), g)
  {
    hide Moved, InSession;
    match a {
      case ControllerTakes => if s.toController != [] { DataGoesUp(s, g); } else { Steady(s, g); }
      case PeerTakes => if s.toPeer != [] { DataGoesDown(s, g); } else { Steady(s, g); }
      case HostSends(sdu) => HostDataQueued(s, g, sdu);
      case PeerSends(sdu) => PeerDataQueued(s, g, sdu);
    }
  }

  /** Draining both channels hands all of it up, and leaves both ends in the session, the peer not failed. */
  lemma {:induction false} SessionDrains(s: Link, g: nat, actions: seq<Action>)
    requires InSession(s, g) && !s.p.failed && forall a :: a in actions ==> a.ControllerTakes? || a.PeerTakes?
    requires Exec(s, actions).toPeer == [] && Exec(s, actions).toController == []
    ensures var t := Exec(s, actions);
      && Conn(t.c) == g == t.p.generation
      && !t.p.failed
      && t.cGot == s.cGot + Upward(s.toController)
      && t.pGot == s.pGot + Downward(s.toPeer)
  {
    hide Exec;
    var t := Exec(s, actions);
    SessionCarriesData(s, g, actions);
    NothingSent(s, actions);
    assert t.cGot + [] == t.cGot && t.pGot + [] == t.pGot;
    assert s.cGot + Upward(s.toController) + [] == s.cGot + Upward(s.toController);
    assert s.pGot + Downward(s.toPeer) + [] == s.pGot + Downward(s.toPeer);
  }

  lemma {:induction false} NothingSent(s: Link, actions: seq<Action>)
    requires forall a :: a in actions ==> a.ControllerTakes? || a.PeerTakes?
    ensures Exec(s, actions).pSent == s.pSent && Exec(s, actions).cSent == s.cSent
  {
    if actions != [] {
      var before, a := Exec(s, actions[..|actions| - 1]), actions[|actions| - 1];
      NothingSent(s, actions[..|actions| - 1]);
      assert a in actions;
      hide Exec, PeerReact, ControllerReact;
    }
  }

  // ----- Encryption -----

  predicate EncryptionOk(c: Controller) {
    && (c.encrypted || c.keyPending ==> c.connected)
    && !(c.encrypted && c.keyPending)
  }

  lemma {:induction false} OnlyTransportTouchesController(s: Link, a: Action)
    requires !ByController(a)
    ensures var c := Next(s, a).c; c == s.c || (!c.encrypted && !c.keyPending) 
  {
    hide PeerReact, PeerFail, PeerDisconnect, PeerSetEnabled, WantsConnection, Available, PeerForget;
  }

  lemma {:induction false} EncryptionStep(s: Link, a: Action)
    requires EncryptionOk(s.c)
    ensures EncryptionOk(Next(s, a).c)
    ensures !s.c.encrypted && Next(s, a).c.encrypted ==>
      && a == EncryptionFinishes(0)
      && s.c.keyPending
      && (s.cOpen && s.pOpen ==> Next(s, a).toPeer == s.toPeer + [Encryption(s.c.generation, 0)])
  {
    hide PeerReact, PeerFail, PeerDisconnect, PeerSetEnabled, WantsConnection, Available, PeerForget;
    if !ByController(a) {
      OnlyTransportTouchesController(s, a);
      hide Next;
    }
  }

  /**
    In every run encryption belongs to a connection, is asked for or up but never both, and comes up only by the host's
    success with a key that was asked for on it, which the peer is told.
   */
  lemma {:induction false} EncryptionBelongsToConnection(nextGeneration: nat, actions: seq<Action>, a: Action)
    ensures var s := Exec(LinkProtocol.Start(nextGeneration), actions);
      && EncryptionOk(s.c)
      && (!s.c.encrypted && Next(s, a).c.encrypted ==>
            && a == EncryptionFinishes(0)
            && s.c.keyPending
            && (s.cOpen && s.pOpen ==> Next(s, a).toPeer == s.toPeer + [Encryption(s.c.generation, 0)]))
  {
    EncryptionRun(nextGeneration, actions);
    hide Next, Exec;
    EncryptionStep(Exec(LinkProtocol.Start(nextGeneration), actions), a);
  }

  lemma {:induction false} EncryptionRun(nextGeneration: nat, actions: seq<Action>)
    ensures EncryptionOk(Exec(LinkProtocol.Start(nextGeneration), actions).c)
  {
    hide Next;
    if actions != [] {
      hide EncryptionOk;
      EncryptionRun(nextGeneration, actions[..|actions| - 1]);
      EncryptionStep(Exec(LinkProtocol.Start(nextGeneration), actions[..|actions| - 1]), actions[|actions| - 1]);
    }
  }

  // ----- A session comes up and goes down -----

  /** Both ends are open and without a session, and nothing is on the way. */
  predicate AtRest(s: Link) {
    && s.cOpen && s.pOpen && s.toPeer == [] && s.toController == []
    && s.c.enabled && !s.c.connected
    && s.p.enabled && !s.p.failed && !s.p.closing && !s.p.connecting && s.p.generation == 0
  }

  /** The firmware advertises and publishes. */
  function Announcing(data: int, catalog: int): seq<Action> {
    [HostAdvertises(true, data, true), PeerTakes, HostPublishes(Complete(catalog)), PeerTakes]
  }

  /** A user asks for a session. */
  const CONNECTING: seq<Action> := [UserStartsSession, PeerConnects, ControllerTakes, PeerTakes]

  lemma {:induction false} AdvertisementArrives(s: Link, data: int)
    requires AtRest(s)
    ensures var t := Next(Next(s, HostAdvertises(true, data, true)), PeerTakes);
      && AtRest(t)
      && t.c == s.c.(advertising := true, connectable := true)
      && t.p.advertising && t.p.advertisement == data
  {
    var a := Next(s, HostAdvertises(true, data, true));
    assert a == s.(c := s.c.(advertising := true, connectable := true), toPeer := [Advertising(true, data)]);
    assert [Advertising(true, data)][1..] == [];
    hide WantsConnection, PeerForget, PeerFail;
  }

  lemma {:induction false} PublicationArrives(s: Link, catalog: int)
    requires AtRest(s)
    ensures var t := Next(Next(s, HostPublishes(Complete(catalog))), PeerTakes);
      && AtRest(t)
      && t.c == s.c
      && t.p.advertising == s.p.advertising && t.p.advertisement == s.p.advertisement
      && t.p.catalogReady && t.p.catalog == catalog
  {
    var a := Next(s, HostPublishes(Complete(catalog)));
    assert a == s.(toPeer := [GattDatabase(Complete(catalog))]);
    assert [GattDatabase(Complete(catalog))][1..] == [];
    hide WantsConnection, PeerForget, PeerFail;
  }

  lemma {:induction false} UserIsConnected(s: Link)
    requires AtRest(s) && s.c.advertising && s.c.connectable && s.p.advertising && s.p.catalogReady
    ensures var t := Next(Next(Next(Next(s, UserStartsSession), PeerConnects), ControllerTakes), PeerTakes);
      && InSession(t, s.c.nextGeneration + 1)
      && t.toPeer == [] && t.toController == []
      && t.c.nextGeneration == s.c.nextGeneration + 1
      && !t.p.failed && t.p.catalogReady && t.p.catalog == s.p.catalog && t.p.advertisement == s.p.advertisement
  {
    var g := s.c.nextGeneration + 1;
    var a := Next(s, UserStartsSession);
    assert a == s.(p := s.p.(sessionRequested := true));
    var b := Next(a, PeerConnects);
    assert b == a.(p := a.p.(connecting := true), toController := [Connect]);
    assert [Connect][1..] == [];
    var c := Next(b, ControllerTakes);
    assert c.toPeer == [Connected(g)] && c.toController == [] && c.p == b.p && c.cOpen && c.pOpen;
    assert c.c.connected && c.c.generation == g == c.c.nextGeneration;
    assert [Connected(g)][1..] == [];
    hide WantsConnection, PeerForget, PeerFail;
  }

  lemma {:induction false} ExecSplit(s: Link, first: seq<Action>, further: seq<Action>)
    ensures Exec(s, first + further) == Exec(Exec(s, first), further)
  {
    hide Next;
    if further == [] {
      assert first + further == first;
    } else {
      var all, n := first + further, |first + further| - 1;
      assert all[..n] == first + further[..|further| - 1] && all[n] == further[|further| - 1];
      ExecSplit(s, first, further[..|further| - 1]);
    }
  }

  lemma {:induction false} ExecTwo(s: Link, a: Action, b: Action)
    ensures Exec(s, [a, b]) == Next(Next(s, a), b)
  {
    hide Next;
    assert [a][..0] == [] && Exec(s, []) == s;
    assert Exec(s, [a]) == Next(s, a);
    assert [a, b][..1] == [a] && [a, b][1] == b;
  }

  /**
    From rest, whatever happened before: once the firmware advertises and publishes, a user gets a session with exactly
    that advertisement and that catalog, on a generation never used before, known to both ends.
   */
  lemma {:induction false} SessionComesUp(s: Link, data: int, catalog: int)
    requires AtRest(s)
    ensures var t := Exec(s, Announcing(data, catalog) + CONNECTING);
      && InSession(t, s.c.nextGeneration + 1)
      && t.c.nextGeneration == s.c.nextGeneration + 1
      && t.toPeer == [] && t.toController == []
      && !t.p.failed
      && t.p.advertisement == data && t.p.catalogReady && t.p.catalog == catalog
  {
    hide Next, AtRest, InSession;
    var a := Exec(s, [HostAdvertises(true, data, true), PeerTakes]);
    ExecTwo(s, HostAdvertises(true, data, true), PeerTakes);
    AdvertisementArrives(s, data);
    var b := Exec(a, [HostPublishes(Complete(catalog)), PeerTakes]);
    ExecTwo(a, HostPublishes(Complete(catalog)), PeerTakes);
    PublicationArrives(a, catalog);
    var c := Exec(b, [UserStartsSession, PeerConnects]);
    ExecTwo(b, UserStartsSession, PeerConnects);
    ExecTwo(c, ControllerTakes, PeerTakes);
    UserIsConnected(b);
    hide Exec;
    ExecSplit(s, [HostAdvertises(true, data, true), PeerTakes], [HostPublishes(Complete(catalog)), PeerTakes]);
    ExecSplit(b, [UserStartsSession, PeerConnects], [ControllerTakes, PeerTakes]);
    ExecSplit(s, Announcing(data, catalog), CONNECTING);
    assert Announcing(data, catalog) ==
      [HostAdvertises(true, data, true), PeerTakes] + [HostPublishes(Complete(catalog)), PeerTakes];
    assert CONNECTING == [UserStartsSession, PeerConnects] + [ControllerTakes, PeerTakes];
  }

  /** A user who ends a session that has nothing on the way brings both ends to rest with one exchange. */
  lemma {:induction false} SessionGoesDown(s: Link, g: nat)
    requires InSession(s, g) && s.toPeer == [] && s.toController == []
    requires s.c.enabled && s.p.enabled && !s.p.failed && !s.p.closing && !s.p.connecting
    ensures var t := Next(Next(Next(s, UserDisconnects), ControllerTakes), PeerTakes);
      && AtRest(t)
      && t.c.nextGeneration == s.c.nextGeneration
      && !t.p.sessionRequested && t.p.catalogReady == s.p.catalogReady && t.p.catalog == s.p.catalog
  {
    var a := Next(s, UserDisconnects);
    assert a.toController == [ToController.Disconnect(g)] && a.toPeer == [] && a.c == s.c && a.cOpen && a.pOpen;
    assert a.p.closing && a.p.closingGeneration == g && a.p.generation == 0 && !a.p.connecting;
    assert [ToController.Disconnect(g)][1..] == [];
    var b := Next(a, ControllerTakes);
    assert b.toPeer == [Disconnected(g)] && b.toController == [] && b.p == a.p && b.cOpen && b.pOpen;
    assert !b.c.connected;
    assert [Disconnected(g)][1..] == [];
    hide WantsConnection, PeerForget, PeerFail;
  }

  // ----- What ends a session -----

  /** As long as the peer stays in a session with a catalog, catalog and advertisement stay what they were. */
  predicate SameCatalog(p: Peer, q: Peer) {
    p.generation != 0 && p.catalogReady && q.generation == p.generation ==>
      q.catalogReady && q.catalog == p.catalog && q.advertisement == p.advertisement
  }

  lemma {:induction false} ReactionKeepsCatalog(p: Peer, m: ToPeer)
    requires p.closing ==> p.generation == 0
    ensures SameCatalog(p, PeerReact(p, m).0)
  {
  }

  lemma {:induction false} OthersKeepCatalog(s: Link, a: Action)
    requires !a.PeerTakes? && (s.p.closing ==> s.p.generation == 0)
    ensures SameCatalog(s.p, Next(s, a).p)
  {
    if ByController(a) {
      ControllerLeavesPeer(s, a);
      hide Next;
    }
    hide ControllerReact, PeerReact, WantsConnection, Available, ByController;
  }

  lemma {:induction false} ControllerLeavesPeer(s: Link, a: Action)
    requires ByController(a)
    ensures Next(s, a).p == s.p
  {
    hide ControllerReact, PeerReact, ControllerReset, ControllerDisconnect;
  }

  /** In every run a session's catalog and advertisement are fixed: a change of either ends the session. */
  lemma {:induction false} SessionKeepsCatalog(nextGeneration: nat, actions: seq<Action>, a: Action)
    ensures var s := Exec(LinkProtocol.Start(nextGeneration), actions);
      var p, q := s.p, Next(s, a).p;
      p.generation != 0 && p.catalogReady && q.generation == p.generation ==>
        q.catalogReady && q.catalog == p.catalog && q.advertisement == p.advertisement
  {
    hide Exec;
    var s := Exec(LinkProtocol.Start(nextGeneration), actions);
    SessionsAgree(nextGeneration, actions);
    if a == PeerTakes {
      hide PeerReact;
      if s.pOpen && s.toPeer != [] { ReactionKeepsCatalog(s.p, s.toPeer[0]); }
    } else {
      OthersKeepCatalog(s, a);
    }
  }

  /**
    The setup deadline: an attempt, a session that is not ready or a close that is not answered by then has failed, the
    link is cleared, and a close takes the transport with it; otherwise the controller is told to end the generation. A
    session that is ready, and a peer that is doing nothing, are left alone.
   */
  lemma {:induction false} DeadlineEndsSetup(s: Link)
    ensures var t := Next(s, SetupTimesOut);
      if !s.p.ready && (s.p.connecting || s.p.generation != 0 || s.p.closing) then
        && t.p.failed && t.p.generation == 0 && !t.p.connecting && !t.p.sessionRequested && !t.p.catalogReady
        && (s.p.closing ==> !t.pOpen && t.toPeer == [])
        && (!s.p.closing && s.cOpen && s.pOpen ==>
              t.toController ==
              s.toController + if s.p.generation != 0 then [ToController.Disconnect(s.p.generation)] else [])
      else t == s
  {
    assert s.toController + [] == s.toController;
  }
}
