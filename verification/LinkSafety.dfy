/** What every run of the link keeps: both ends agree on sessions, and session data stays in its session. */
module LinkSafety {
  import opened Bits
  import opened LinkProtocol

  // ----- The invariant -----

  /** Closing excludes connecting and holding a generation. */
  predicate PeerConsistent(p: Peer) {
    && (p.closing ==> !p.connecting && p.generation == 0)
    && (p.connecting ==> p.generation == 0 && p.enabled)
    && (p.closingGeneration != 0 ==> p.closing)
  }

  predicate ToPeerBounded(q: seq<ToPeer>, limit: nat) {
    forall m :: m in q && (m.Connected? || m.Disconnected? || m.Data? || m.Encryption?) ==> m.g <= limit
  }

  predicate ToControllerBounded(q: seq<ToController>, limit: nat) {
    forall m :: m in q && !m.Connect? ==> m.g <= limit
  }

  predicate LogBounded(log: seq<(nat, Sdu)>, limit: nat) {
    forall e :: e in log ==> e.0 <= limit
  }

  /** No generation anywhere is newer than the last one issued. */
  predicate Fresh(s: Link) {
    var limit := s.c.nextGeneration;
    && s.c.generation <= limit && s.cut.last <= limit
    && ToPeerBounded(s.toPeer, limit)
    && ToControllerBounded(s.toController, limit)
    && LogBounded(s.cSent, limit)
    && LogBounded(s.pGot, limit)
    && LogBounded(s.pSent, limit)
    && LogBounded(s.cGot, limit)
  }

  function Now(c: Controller): Stamp {
    Stamp(Conn(c), c.generation)
  }

  /** The channel to the peer tells the controller's story from `cut` to the present. */
  predicate ChannelTells(s: Link) {
    && (s.c.connected ==> s.c.generation != 0)
    && (s.pOpen ==> Orderly(s.cut, s.toPeer) && (s.cut.conn != 0 ==> s.cut.conn == s.cut.last))
    && (s.pOpen && s.cOpen ==> AfterAll(s.cut, s.toPeer) == Now(s.c))
  }

  /** The peer holds or is closing exactly the generation the controller was connected on at `cut`. */
  predicate PeerFollows(p: Peer, cut: Stamp) {
    && (p.generation != 0 ==> p.generation == cut.conn)
    && (p.closingGeneration != 0 ==> p.closingGeneration == cut.conn)
    && (cut.conn != 0 ==> p.generation == cut.conn || p.closingGeneration == cut.conn)
  }

  /** A close of the controller's present generation is on its way to the controller. */
  predicate CloseUnderway(s: Link) {
    s.pOpen && s.cOpen && s.p.closingGeneration != 0 && s.p.closingGeneration == Conn(s.c) ==>
      Disconnect(s.p.closingGeneration) in s.toController
  }

  function For(log: seq<(nat, Sdu)>, g: nat): seq<Sdu> {
    if log == [] then []
    else For(log[..|log| - 1], g) + (if log[|log| - 1].0 == g then [log[|log| - 1].1] else [])
  }

  function DataFor(q: seq<ToPeer>, g: nat): seq<Sdu> {
    if q == [] then [] else (if q[0].Data? && q[0].g == g then [q[0].sdu] else []) + DataFor(q[1..], g)
  }

  function L2capFor(q: seq<ToController>, g: nat): seq<Sdu> {
    if q == [] then [] else (if q[0].L2cap? && q[0].g == g then [q[0].sdu] else []) + L2capFor(q[1..], g)
  }

  /** Processed and on the way is all that was sent; a broken controller end may have lost the tail. */
  predicate DownwardWhole(s: Link, g: nat) {
    && For(s.pGot, g) + DataFor(s.toPeer, g) <= For(s.cSent, g)
    && (s.cOpen ==> For(s.pGot, g) + DataFor(s.toPeer, g) == For(s.cSent, g))
  }

  predicate DownwardIntact(s: Link, g: nat) {
    && For(s.pGot, g) <= For(s.cSent, g)
    && (s.pOpen && (s.p.generation == g || Connected(g) in s.toPeer) ==> DownwardWhole(s, g))
  }

  predicate UpwardIntact(s: Link, g: nat) {
    && For(s.cGot, g) <= For(s.pSent, g)
    && (s.cOpen && Conn(s.c) == g ==>
        && For(s.cGot, g) + L2capFor(s.toController, g) <= For(s.pSent, g)
        && (s.pOpen ==> For(s.cGot, g) + L2capFor(s.toController, g) == For(s.pSent, g)))
  }

  ghost predicate Intact(s: Link) {
    forall g: nat :: g != 0 ==> DownwardIntact(s, g) && UpwardIntact(s, g)
  }

  ghost predicate InvButClose(s: Link) {
    && PeerConsistent(s.p)
    && Fresh(s)
    && ChannelTells(s)
    && (s.pOpen ==> PeerFollows(s.p, s.cut))
    && Intact(s)
  }

  ghost predicate Inv(s: Link) {
    InvButClose(s) && CloseUnderway(s)
  }

  // ----- Queues and logs -----

  lemma {:induction false} DataForAppend(q: seq<ToPeer>, r: seq<ToPeer>, g: nat)
    ensures DataFor(q + r, g) == DataFor(q, g) + DataFor(r, g)
  {
    if q == [] {
      assert q + r == r;
    } else {
      assert (q + r)[1..] == q[1..] + r;
      DataForAppend(q[1..], r, g);
    }
  }

  lemma {:induction false} L2capForAppend(q: seq<ToController>, r: seq<ToController>, g: nat)
    ensures L2capFor(q + r, g) == L2capFor(q, g) + L2capFor(r, g)
  {
    if q == [] {
      assert q + r == r;
    } else {
      assert (q + r)[1..] == q[1..] + r;
      L2capForAppend(q[1..], r, g);
    }
  }

  lemma {:induction false} ForAppend(log: seq<(nat, Sdu)>, e: (nat, Sdu), g: nat)
    ensures For(log + [e], g) == For(log, g) + (if e.0 == g then [e.1] else [])
  {
    assert (log + [e])[..|log|] == log;
  }

  lemma {:induction false} NoneFor(log: seq<(nat, Sdu)>, limit: nat, g: nat)
    requires LogBounded(log, limit) && g > limit
    ensures For(log, g) == []
  {
    if log != [] { NoneFor(log[..|log| - 1], limit, g); }
  }

  lemma {:induction false} NoDataFor(q: seq<ToPeer>, limit: nat, g: nat)
    requires ToPeerBounded(q, limit) && g > limit
    ensures DataFor(q, g) == []
  {
    if q != [] { NoDataFor(q[1..], limit, g); }
  }

  lemma {:induction false} NoL2capFor(q: seq<ToController>, limit: nat, g: nat)
    requires ToControllerBounded(q, limit) && g > limit
    ensures L2capFor(q, g) == []
  {
    if q != [] { NoL2capFor(q[1..], limit, g); }
  }

  lemma {:induction false} DataForPrefix(q: seq<ToPeer>, k: nat, g: nat)
    requires k <= |q|
    ensures DataFor(q[..k], g) <= DataFor(q, g)
  {
    assert q == q[..k] + q[k..];
    DataForAppend(q[..k], q[k..], g);
  }

  lemma {:induction false} L2capForPrefix(q: seq<ToController>, k: nat, g: nat)
    requires k <= |q|
    ensures L2capFor(q[..k], g) <= L2capFor(q, g)
  {
    assert q == q[..k] + q[k..];
    L2capForAppend(q[..k], q[k..], g);
  }

  lemma {:induction false} AppendAll(st: Stamp, q: seq<ToPeer>, out: seq<ToPeer>)
    requires Orderly(st, q) && Orderly(AfterAll(st, q), out)
    ensures Orderly(st, q + out)
    ensures AfterAll(st, q + out) == AfterAll(AfterAll(st, q), out)
    decreases |out|
  {
    if out == [] {
      assert q + out == q;
    } else {
      AppendOne(st, q, out[0]);
      AppendAll(st, q + [out[0]], out[1..]);
      assert q + [out[0]] + out[1..] == q + out;
    }
  }

  // ----- Steps of the controller -----

  /** A controller step: the messages sent fit the change of state, carry no data, and connect only afresh. */
  predicate ControllerStepOk(c: Controller, r: (Controller, seq<ToPeer>)) {
    && Orderly(Now(c), r.1) && AfterAll(Now(c), r.1) == Now(r.0)
    && (forall m :: m in r.1 ==> !m.Data?)
    && (forall m :: m in r.1 && m.Connected? ==> m.g > c.nextGeneration)
    && c.nextGeneration <= r.0.nextGeneration
    && r.0.generation <= r.0.nextGeneration
    && ToPeerBounded(r.1, r.0.nextGeneration)
    && (r.0.connected ==> r.0.generation != 0)
    && (Conn(r.0) == Conn(c) || Conn(r.0) == 0 || Conn(r.0) > c.nextGeneration)
  }

  lemma {:induction false} NoDataIn(q: seq<ToPeer>, g: nat)
    requires forall m :: m in q ==> !m.Data?
    ensures DataFor(q, g) == []
  {
    if q != [] { NoDataIn(q[1..], g); }
  }

  lemma {:induction false} ControllerStepKeeps(s: Link, r: (Controller, seq<ToPeer>))
    requires InvButClose(s) && (CloseUnderway(s) || Conn(r.0) == 0) && ControllerStepOk(s.c, r)
    ensures Inv(WithController(s, r))
  {
    var t := WithController(s, r);
    if s.pOpen && s.cOpen {
      AppendAll(s.cut, s.toPeer, r.1);
    }
    assert Fresh(t);
    assert CloseUnderway(t);
    forall g: nat | g != 0
      ensures DownwardIntact(t, g) && UpwardIntact(t, g)
    {
      DataForAppend(s.toPeer, r.1, g);
      NoDataIn(r.1, g);
      assert DataFor(s.toPeer, g) + [] == DataFor(s.toPeer, g);
      assert DownwardIntact(s, g) && UpwardIntact(s, g);
      if g > s.c.nextGeneration {
        NothingYet(s, g);
      }
    }
  }

  /** A generation not issued yet has no data anywhere. */
  lemma {:induction false} NothingYet(s: Link, g: nat)
    requires Fresh(s) && g > s.c.nextGeneration
    ensures For(s.cSent, g) == []
    ensures For(s.pGot, g) == []
    ensures For(s.pSent, g) == []
    ensures For(s.cGot, g) == []
    ensures DataFor(s.toPeer, g) == [] && L2capFor(s.toController, g) == []
  {
    NoneFor(s.cSent, s.c.nextGeneration, g);
    NoneFor(s.pGot, s.c.nextGeneration, g);
    NoneFor(s.pSent, s.c.nextGeneration, g);
    NoneFor(s.cGot, s.c.nextGeneration, g);
    NoDataFor(s.toPeer, s.c.nextGeneration, g);
    NoL2capFor(s.toController, s.c.nextGeneration, g);
  }

  lemma {:induction false} DisconnectOk(c: Controller)
    requires c.generation <= c.nextGeneration && (c.connected ==> c.generation != 0)
    ensures ControllerStepOk(c, ControllerDisconnect(c))
  {
    if c.connected {
      assert Orderly(Now(c), [Disconnected(c.generation)]);
    }
  }

  lemma {:induction false} ResetOk(c: Controller)
    requires c.generation <= c.nextGeneration && (c.connected ==> c.generation != 0)
    ensures ControllerStepOk(c, ControllerReset(c))
  {
    DisconnectOk(c);
    var (d, out) := ControllerDisconnect(c);
    AppendOne(Now(c), out, Reset);
  }

  lemma {:induction false} ReceiveOk(c: Controller, m: ToController)
    requires c.generation <= c.nextGeneration && (c.connected ==> c.generation != 0)
    requires !m.Connect? ==> m.g <= c.nextGeneration
    ensures ControllerStepOk(c, ControllerReceive(c, m))
  {
    DisconnectOk(c);
    var r := ControllerReceive(c, m);
    if r.1 != [] {
      assert r.1 == [r.1[0]] && r.1[1..] == [];
      assert Orderly(After(Now(c), r.1[0]), r.1[1..]);
    }
  }

  /** Data of its own generation is what the controller passes up, and nothing else is. */
  lemma {:induction false} PassedToHost(c: Controller, m: ToController)
    ensures ControllerReact(c, m).2 == if m.L2cap? && c.connected && m.g == c.generation then [(m.g, m.sdu)] else []
  {
    hide ControllerDisconnect;
  }

  lemma {:induction false} ControllerTookIntact(s: Link, g: nat)
    requires s.toController != [] && s.cOpen && g != 0 && UpwardIntact(s, g) && DownwardIntact(s, g)
    ensures UpwardIntact(ControllerTook(s), g)
    ensures DownwardIntact(ControllerTook(s), g)
  {
    hide For, DataFor, L2capFor, ControllerReact;
    PassedToHost(s.c, s.toController[0]);
    assert s.cGot + [] == s.cGot;
    var m, rest := s.toController[0], s.toController[1..];
    L2capForHead(s.toController, g);
    if m.L2cap? && s.c.connected && m.g == s.c.generation {
      ForAppend(s.cGot, (m.g, m.sdu), g);
      assert For(s.cGot, g) + [m.sdu] + L2capFor(rest, g) == For(s.cGot, g) + ([m.sdu] + L2capFor(rest, g));
    }
    assert [] + L2capFor(rest, g) == L2capFor(rest, g);
  }

  lemma {:induction false} L2capForHead(q: seq<ToController>, g: nat)
    requires q != []
    ensures L2capFor(q, g) == (if q[0].L2cap? && q[0].g == g then [q[0].sdu] else []) + L2capFor(q[1..], g)
  {
  }

  lemma {:induction false} ControllerTakesKeeps(s: Link)
    requires Inv(s) && s.cOpen && s.toController != []
    ensures Inv(ControllerTakesNext(s))
  {
    var m, taken := s.toController[0], ControllerTook(s);
    forall g: nat | g != 0
      ensures DownwardIntact(taken, g) && UpwardIntact(taken, g)
    {
      ControllerTookIntact(s, g);
    }
    assert InvButClose(taken) by {
      assert Fresh(taken);
    }
    ReceiveOk(s.c, m);
    if !CloseUnderway(taken) {
      assert m == Disconnect(s.p.closingGeneration);
    }
    ControllerStepKeeps(taken, ControllerReceive(s.c, m));
  }

  lemma {:induction false} HostSendsKeeps(s: Link, sdu: Sdu)
    requires Inv(s) && s.c.connected
    ensures Inv(Next(s, HostSends(sdu)))
  {
    var t := Next(s, HostSends(sdu));
    if s.cOpen && s.pOpen {
      var m, e := Data(s.c.generation, sdu), (s.c.generation, sdu);
      AppendOne(s.cut, s.toPeer, m);
      forall g: nat | g != 0
        ensures DownwardIntact(t, g) && UpwardIntact(t, g)
      {
        assert DownwardIntact(s, g) && UpwardIntact(s, g);
        DataForAppend(s.toPeer, [m], g);
        ForAppend(s.cSent, e, g);
        assert DataFor([m], g) == if e.0 == g then [sdu] else [];
        assert For(s.pGot, g) + (DataFor(s.toPeer, g) + DataFor([m], g)) ==
          For(s.pGot, g) + DataFor(s.toPeer, g) + DataFor([m], g);
      }
      assert Fresh(t);
    }
  }

  // ----- Steps of the peer -----

  /** A peer step seen from the stamp `cut`: it keeps the peer consistent, and announces a new close. */
  predicate PeerStepOk(p: Peer, cut: Stamp, r: (Peer, seq<ToController>)) {
    && PeerConsistent(r.0) && PeerFollows(r.0, cut)
    && (forall m :: m in r.1 ==> !m.L2cap?)
    && ToControllerBounded(r.1, cut.last)
    && (r.0.closingGeneration != 0 ==>
         r.0.closingGeneration == p.closingGeneration || Disconnect(r.0.closingGeneration) in r.1)
  }

  lemma {:induction false} NoL2capIn(q: seq<ToController>, g: nat)
    requires forall m :: m in q ==> !m.L2cap?
    ensures L2capFor(q, g) == []
  {
    if q != [] { NoL2capIn(q[1..], g); }
  }

  /** Channel and session facts that do not mention the peer's own state. */
  ghost predicate InvButPeer(s: Link) {
    Fresh(s) && ChannelTells(s) && Intact(s)
  }

  lemma {:induction false} PeerStepKeeps(s: Link, r: (Peer, seq<ToController>))
    requires InvButPeer(s) && s.pOpen && PeerStepOk(s.p, s.cut, r)
    requires r.0.closingGeneration != 0 && r.0.closingGeneration == s.p.closingGeneration ==> CloseUnderway(s)
    requires r.0.generation != 0 && r.0.generation != s.p.generation ==> DownwardWhole(s, r.0.generation)
    ensures Inv(WithPeer(s, r))
  {
    var t := WithPeer(s, r);
    assert Fresh(t);
    assert CloseUnderway(t);
    forall g: nat | g != 0
      ensures DownwardIntact(t, g) && UpwardIntact(t, g)
    {
      assert DownwardIntact(s, g) && UpwardIntact(s, g);
      L2capForAppend(s.toController, r.1, g);
      NoL2capIn(r.1, g);
      assert L2capFor(s.toController, g) + [] == L2capFor(s.toController, g);
    }
  }

  /** Beyond an end that is closed nothing is sent, so only the peer's own consistency is at stake. */
  lemma {:induction false} ClosedPeerStepKeeps(s: Link, r: (Peer, seq<ToController>))
    requires Inv(s) && !s.pOpen && PeerConsistent(r.0)
    ensures Inv(WithPeer(s, r))
  {
    var t := WithPeer(s, r);
    forall g: nat | g != 0
      ensures DownwardIntact(t, g) && UpwardIntact(t, g)
    {
      assert DownwardIntact(s, g) && UpwardIntact(s, g);
    }
  }

  predicate StampOk(cut: Stamp) {
    cut.conn != 0 ==> cut.conn == cut.last
  }

  lemma {:induction false} PeerDisconnectOk(p: Peer, cut: Stamp)
    requires PeerConsistent(p.(enabled := true))
    ensures PeerConsistent(PeerDisconnect(p).0)
    ensures PeerDisconnect(p).0.generation == 0
    ensures PeerFollows(p, cut) && StampOk(cut) ==> PeerStepOk(p, cut, PeerDisconnect(p))
  {
  }

  lemma {:induction false} PeerFailOk(p: Peer, cut: Stamp)
    requires PeerConsistent(p)
    ensures PeerConsistent(PeerFail(p).0) && PeerFail(p).0.generation == 0
    ensures PeerFollows(p, cut) && StampOk(cut) ==> PeerStepOk(p, cut, PeerFail(p))
  {
    PeerDisconnectOk(p.(failed := true), cut);
  }

  lemma {:induction false} PeerEnableOk(p: Peer, cut: Stamp, on: bool)
    requires PeerConsistent(p)
    ensures PeerConsistent(PeerSetEnabled(p, on).0)
    ensures PeerFollows(p, cut) && StampOk(cut) ==> PeerStepOk(p, cut, PeerSetEnabled(p, on))
    ensures PeerSetEnabled(p, on).0.generation == p.generation || PeerSetEnabled(p, on).0.generation == 0
  {
    PeerDisconnectOk(p.(enabled := false), cut);
  }

  /** Whatever message comes next, the peer follows the controller past it. */
  lemma {:induction false} PeerReceiveOk(p: Peer, cut: Stamp, m: ToPeer)
    requires PeerConsistent(p) && PeerFollows(p, cut) && StampOk(cut) && Fits(cut, m)
    ensures StampOk(After(cut, m))
    ensures PeerStepOk(p, After(cut, m), PeerReceive(p, m))
    ensures var q := PeerReceive(p, m).0; q.generation != 0 && q.generation != p.generation ==>
      m == Connected(q.generation)
  {
    match m {
      case GattDatabase(part) => PublicationOk(p, cut, part);
      case Advertising(on, data) => AdvertisementOk(p, cut, on, data);
      case Rejected(_) => PeerFailOk(p, cut);
      case _ =>
    }
  }

  lemma {:induction false} PublicationOk(p: Peer, cut: Stamp, part: Publication)
    requires PeerConsistent(p) && PeerFollows(p, cut) && StampOk(cut)
    ensures PeerStepOk(p, cut, PeerPublication(p, part))
    ensures var q := PeerPublication(p, part).0; q.generation == 0 || q.generation == p.generation
  {
    PeerFailOk(p, cut);
    PeerDisconnectOk(p, cut);
  }

  lemma {:induction false} AdvertisementOk(p: Peer, cut: Stamp, on: bool, data: int)
    requires PeerConsistent(p) && PeerFollows(p, cut) && StampOk(cut)
    ensures PeerStepOk(p, cut, PeerAdvertisement(p, on, data))
    ensures var q := PeerAdvertisement(p, on, data).0; q.generation == 0 || q.generation == p.generation
  {
    PeerDisconnectOk(p.(advertising := on, advertisement := data), cut);
  }

  /** Data of the generation it holds is what the peer passes up, and nothing else is. */
  lemma {:induction false} PassedToPeer(p: Peer, m: ToPeer)
    ensures PeerReact(p, m).2 == if m.Data? && PeerAccepts(p, m.g) then [(m.g, m.sdu)] else []
  {
    hide PeerPublication, PeerAdvertisement, PeerFail;
  }

  lemma {:induction false} PeerTookIntact(s: Link, g: nat)
    requires s.toPeer != [] && s.pOpen && g != 0 && UpwardIntact(s, g) && DownwardIntact(s, g)
    requires ChannelTells(s) && PeerFollows(s.p, s.cut)
    ensures UpwardIntact(PeerTook(s), g) && DownwardIntact(PeerTook(s), g)
    ensures s.toPeer[0] == Connected(g) ==> DownwardWhole(PeerTook(s), g)
  {
    hide For, DataFor, Orderly, AfterAll, L2capFor, PeerReact;
    PassedToPeer(s.p, s.toPeer[0]);
    assert s.pGot + [] == s.pGot;
    var m, rest, t := s.toPeer[0], s.toPeer[1..], PeerTook(s);
    assert Connected(g) in rest ==> Connected(g) in s.toPeer;
    if m.Data? && m.g == g && !PeerAccepts(s.p, g) {
      assert !(Connected(g) in rest) by { DataPrecludesAnnouncement(s, g); }
    } else {
      PeerTookConserves(s, g);
    }
  }

  lemma {:induction false} DataPrecludesAnnouncement(s: Link, g: nat)
    requires s.toPeer != [] && s.pOpen && ChannelTells(s) && s.toPeer[0].Data? && s.toPeer[0].g == g
    ensures Connected(g) !in s.toPeer[1..]
  {
    if Connected(g) in s.toPeer[1..] {
      AnnouncedAreNewer(s.cut, s.toPeer[1..], g);
    }
  }

  /** Taking a message moves its data from the channel to the log, or touches neither. */
  lemma {:induction false} PeerTookConserves(s: Link, g: nat)
    requires s.toPeer != [] && !(s.toPeer[0].Data? && s.toPeer[0].g == g && !PeerAccepts(s.p, g))
    ensures var t := PeerTook(s); For(t.pGot, g) + DataFor(t.toPeer, g) == For(s.pGot, g) + DataFor(s.toPeer, g)
    ensures For(s.pGot, g) <= For(PeerTook(s).pGot, g) <= For(s.pGot, g) + DataFor(s.toPeer, g)
    ensures !(s.toPeer[0].Data? && s.toPeer[0].g == g) ==> For(PeerTook(s).pGot, g) == For(s.pGot, g)
  {
    hide *;
    var m, rest := s.toPeer[0], s.toPeer[1..];
    var head := if m.Data? && m.g == g then [m.sdu] else [];
    TookFromPeerChannel(s);
    DataForHead(s.toPeer, g);
    if m.Data? && PeerAccepts(s.p, m.g) {
      ForAppend(s.pGot, (m.g, m.sdu), g);
    }
    assert For(s.pGot, g) + [] == For(s.pGot, g);
    assert For(PeerTook(s).pGot, g) == For(s.pGot, g) + head;
    MovesOver(For(s.pGot, g), head, DataFor(rest, g));
  }

  lemma {:induction false} MovesOver(got: seq<Sdu>, head: seq<Sdu>, rest: seq<Sdu>)
    ensures (got + head) + rest == got + (head + rest)
    ensures got <= got + head <= got + (head + rest)
  {
    assert got + (head + rest) == (got + head) + rest;
  }

  lemma {:induction false} TookFromPeerChannel(s: Link)
    requires s.toPeer != []
    ensures var m, t := s.toPeer[0], PeerTook(s);
      && t.toPeer == s.toPeer[1..]
      && t.pGot == if m.Data? && PeerAccepts(s.p, m.g) then s.pGot + [(m.g, m.sdu)] else s.pGot
  {
    hide PeerReact, PeerAccepts;
    PassedToPeer(s.p, s.toPeer[0]);
    assert s.pGot + [] == s.pGot;
  }

  lemma {:induction false} DataForHead(q: seq<ToPeer>, g: nat)
    requires q != []
    ensures DataFor(q, g) == (if q[0].Data? && q[0].g == g then [q[0].sdu] else []) + DataFor(q[1..], g)
  {
  }

  lemma {:induction false} PeerTakesKeeps(s: Link)
    requires Inv(s) && s.pOpen && s.toPeer != []
    ensures Inv(PeerTakesNext(s))
  {
    var m, taken := s.toPeer[0], PeerTook(s);
    forall g: nat | g != 0
      ensures DownwardIntact(taken, g) && UpwardIntact(taken, g)
      ensures m == Connected(g) ==> DownwardWhole(taken, g)
    {
      PeerTookIntact(s, g);
    }
    assert m in s.toPeer;
    assert InvButPeer(taken) by {
      assert Fresh(taken);
    }
    PeerReceiveOk(s.p, s.cut, m);
    PeerStepKeeps(taken, PeerReceive(s.p, m));
  }

  lemma {:induction false} PeerSendsKeeps(s: Link, sdu: Sdu)
    requires Inv(s) && s.p.generation != 0
    ensures Inv(Next(s, PeerSends(sdu)))
  {
    var t := Next(s, PeerSends(sdu));
    if s.cOpen && s.pOpen {
      var m, e := L2cap(s.p.generation, sdu), (s.p.generation, sdu);
      forall g: nat | g != 0
        ensures DownwardIntact(t, g) && UpwardIntact(t, g)
      {
        assert DownwardIntact(s, g) && UpwardIntact(s, g);
        L2capForAppend(s.toController, [m], g);
        ForAppend(s.pSent, e, g);
        assert L2capFor([m], g) == if e.0 == g then [sdu] else [];
        assert For(s.cGot, g) + (L2capFor(s.toController, g) + L2capFor([m], g)) ==
          For(s.cGot, g) + L2capFor(s.toController, g) + L2capFor([m], g);
      }
      assert Fresh(t);
    }
  }

  // ----- The transport breaks -----

  lemma {:induction false} PeerCloseKeeps(s: Link, p: Peer, flushed: nat)
    requires Inv(s) && PeerConsistent(p)
    ensures Inv(ClosePeerEnd(s.(p := p), flushed))
  {
    var t := ClosePeerEnd(s.(p := p), flushed);
    forall g: nat | g != 0
      ensures DownwardIntact(t, g) && UpwardIntact(t, g)
    {
      assert DownwardIntact(s, g) && UpwardIntact(s, g);
      L2capForPrefix(s.toController, Min(flushed, |s.toController|), g);
    }
  }

  lemma {:induction false} ControllerCloseKeeps(s: Link, flushed: nat)
    requires Inv(s)
    ensures Inv(Next(s, ControllerCloses(flushed)))
  {
    var t := Next(s, ControllerCloses(flushed));
    var k := Min(flushed, |s.toPeer|);
    if s.pOpen { PrefixOrderly(s.cut, s.toPeer, k); }
    forall g: nat | g != 0
      ensures DownwardIntact(t, g) && UpwardIntact(t, g)
    {
      assert DownwardIntact(s, g) && UpwardIntact(s, g);
      DataForPrefix(s.toPeer, k, g);
    }
  }

  // ----- Every run -----

  lemma {:induction false} ControllerActionKeeps(s: Link, a: Action)
    requires Inv(s)
    requires || a.HostDisconnects? || a.HostResets? || a.HostDisables? || a.HostEnables?
             || a.HostAdvertises? || a.EncryptionFinishes? || a.HostPublishes?
    ensures Inv(Next(s, a))
  {
    var c := s.c;
    match a {
      case HostDisconnects => DisconnectOk(c); ControllerStepKeeps(s, ControllerDisconnect(c));
      case HostResets => ResetOk(c); ControllerStepKeeps(s, ControllerReset(c));
      case HostDisables =>
        ResetOk(c.(enabled := false));
        ControllerStepKeeps(s, ControllerReset(c.(enabled := false)));
      case HostEnables =>
        ControllerStepKeeps(s, (c.(enabled := true), []));
        assert s.toPeer + [] == s.toPeer;
      case HostAdvertises(on, data, connectable) =>
        if !(c.connected && on) {
          AnnouncingKeeps(s, c.(advertising := on, connectable := connectable), Advertising(on, data));
        }
      case EncryptionFinishes(status) =>
        if c.keyPending && c.connected {
          var m := Encryption(c.generation, status);
          AnnouncingKeeps(s, c.(keyPending := false, encrypted := status == 0), m);
        }
      case HostPublishes(part) => AnnouncingKeeps(s, c, GattDatabase(part));
    }
  }

  lemma {:induction false} AnnouncingKeeps(s: Link, d: Controller, m: ToPeer)
    requires Inv(s) && Now(d) == Now(s.c) && d.nextGeneration == s.c.nextGeneration && d.connected == s.c.connected
    requires m.Advertising? || m.GattDatabase? || (m.Encryption? && s.c.connected && m.g == s.c.generation)
    ensures Inv(WithController(s, (d, [m])))
  {
    OneMessage(s.c, d, m);
    ControllerStepKeeps(s, (d, [m]));
  }

  lemma {:induction false} OneMessage(c: Controller, d: Controller, m: ToPeer)
    requires Fits(Now(c), m) && After(Now(c), m) == Now(d)
    ensures Orderly(Now(c), [m]) && AfterAll(Now(c), [m]) == Now(d)
  {
    assert [m][1..] == [];
  }

  lemma {:induction false} PeerStepEitherWay(s: Link, r: (Peer, seq<ToController>))
    requires Inv(s) && PeerConsistent(r.0) && (s.pOpen ==> PeerStepOk(s.p, s.cut, r))
    requires r.0.generation == s.p.generation || r.0.generation == 0
    ensures Inv(WithPeer(s, r))
  {
    if s.pOpen { PeerStepKeeps(s, r); } else { ClosedPeerStepKeeps(s, r); }
  }

  lemma {:induction false} PeerFailKeeps(s: Link)
    requires Inv(s)
    ensures Inv(WithPeer(s, PeerFail(s.p)))
  {
    PeerFailOk(s.p, s.cut);
    PeerStepEitherWay(s, PeerFail(s.p));
  }

  lemma {:induction false} PeerDisconnectKeeps(s: Link)
    requires Inv(s)
    ensures Inv(WithPeer(s, PeerDisconnect(s.p)))
  {
    PeerDisconnectOk(s.p, s.cut);
    PeerStepEitherWay(s, PeerDisconnect(s.p));
  }

  lemma {:induction false} PeerEnableKeeps(s: Link, on: bool)
    requires Inv(s)
    ensures Inv(WithPeer(s, PeerSetEnabled(s.p, on)))
  {
    PeerEnableOk(s.p, s.cut, on);
    PeerStepEitherWay(s, PeerSetEnabled(s.p, on));
  }

  lemma {:induction false} SetupTimeoutKeeps(s: Link)
    requires Inv(s)
    ensures Inv(SetupTimeout(s))
  {
    if s.p.closing {
      var p := s.p.(closing := false, closingGeneration := 0);
      PeerFailOk(p, s.cut);
      PeerCloseKeeps(s, PeerFail(p).0, 0);
    } else {
      PeerFailKeeps(s);
    }
  }

  lemma {:induction false} PeerActionKeeps(s: Link, a: Action)
    requires Inv(s)
    requires a.PeerConnects? || a.UserStartsSession? || a.DiscoveryEnds? || a.PeerAsksEncryption?
    ensures Inv(Next(s, a))
  {
    var p := s.p;
    assert s.toController + [] == s.toController;
    match a {
      case PeerConnects =>
        if WantsConnection(p) { PeerStepEitherWay(s, (p.(connecting := true), [Connect])); }
      case UserStartsSession => PeerStepEitherWay(s, (p.(sessionRequested := true), []));
      case DiscoveryEnds => PeerStepEitherWay(s, (p.(ready := true), []));
      case PeerAsksEncryption =>
        if p.generation != 0 { PeerStepEitherWay(s, (p, [Encrypt(p.generation)])); }
    }
  }

  lemma {:induction false} TransportActionKeeps(s: Link, a: Action)
    requires Inv(s)
    requires || a.ControllerCloses? || a.PeerCloses? || a.ControllerNotices? || a.PeerNotices?
             || a.PeerRestarts? || a.Reopens?
    ensures Inv(Next(s, a))
  {
    hide Inv;
    match a {
      case ControllerCloses(flushed) => ControllerCloseKeeps(s, flushed);
      case PeerCloses(flushed) =>
        PeerStaysConsistent(s);
        PeerCloseKeeps(s, s.p, flushed);
      case ControllerNotices =>
        if !s.cOpen {
          NoticingKeeps(s);
        }
      case PeerNotices => if !s.pOpen { ForgettingKeeps(s); }
      case PeerRestarts(flushed) =>
        ForgetOk(s.p.(failed := false));
        PeerCloseKeeps(s, PeerForget(s.p.(failed := false)), flushed);
      case Reopens(nextGeneration) => if !s.pOpen { ReopenHolds(s, nextGeneration); }
    }
  }

  lemma {:induction false} NoticingKeeps(s: Link)
    requires Inv(s) && !s.cOpen
    ensures Inv(Next(s, ControllerNotices))
  {
    DisconnectOk(s.c);
    ControllerStepKeeps(s, ControllerDisconnect(s.c));
  }

  lemma {:induction false} ForgettingKeeps(s: Link)
    requires Inv(s) && !s.pOpen
    ensures Inv(Next(s, PeerNotices))
  {
    ForgetOk(s.p);
    ClosedPeerStepKeeps(s, (PeerForget(s.p), []));
  }

  lemma {:induction false} ForgetOk(p: Peer)
    ensures PeerConsistent(PeerForget(p))
  {
  }

  lemma {:induction false} PeerStaysConsistent(s: Link)
    requires Inv(s)
    ensures PeerConsistent(s.p)
  {
  }

  lemma {:induction false} ReopenHolds(s: Link, nextGeneration: nat)
    requires !s.pOpen
    ensures Inv(Next(s, Reopens(nextGeneration)))
  {
  }

  lemma {:induction false} ActionKeeps(s: Link, a: Action)
    requires Inv(s)
    ensures Inv(Next(s, a))
  {
    hide Inv;
    match a {
      case ControllerTakes => if s.cOpen && s.toController != [] { ControllerTakesKeeps(s); }
      case HostSends(sdu) => if s.c.connected { HostSendsKeeps(s, sdu); }
      case PeerTakes => if s.pOpen && s.toPeer != [] { PeerTakesKeeps(s); }
      case PeerSends(sdu) => if s.p.generation != 0 { PeerSendsKeeps(s, sdu); }
      case HostDisconnects => ControllerActionKeeps(s, a);
      case HostResets => ControllerActionKeeps(s, a);
      case HostDisables => ControllerActionKeeps(s, a);
      case HostEnables => ControllerActionKeeps(s, a);
      case HostAdvertises(_, _, _) => ControllerActionKeeps(s, a);
      case EncryptionFinishes(_) => ControllerActionKeeps(s, a);
      case HostPublishes(_) => ControllerActionKeeps(s, a);
      case PeerConnects => PeerActionKeeps(s, a);
      case PeerFails => PeerFailKeeps(s);
      case SetupTimesOut => SetupTimeoutKeeps(s);
      case UserDisconnects => PeerDisconnectKeeps(s);
      case UserEnables(on) => PeerEnableKeeps(s, on);
      case UserStartsSession => PeerActionKeeps(s, a);
      case DiscoveryEnds => PeerActionKeeps(s, a);
      case PeerAsksEncryption => PeerActionKeeps(s, a);
      case _ => TransportActionKeeps(s, a);
    }
  }

  lemma {:induction false} StartHolds(nextGeneration: nat)
    ensures Inv(LinkProtocol.Start(nextGeneration))
  {
  }

  lemma {:induction false} RunKeeps(nextGeneration: nat, actions: seq<Action>)
    ensures Inv(Exec(LinkProtocol.Start(nextGeneration), actions))
  {
    hide Inv, Next;
    if actions == [] {
      StartHolds(nextGeneration);
    } else {
      RunKeeps(nextGeneration, actions[..|actions| - 1]);
      ActionKeeps(Exec(LinkProtocol.Start(nextGeneration), actions[..|actions| - 1]), actions[|actions| - 1]);
    }
  }

  /**
    The link protocol is safe in every run: with the transport up, a generation the peer holds is the
    controller's or its end is on the way; a generation the controller is connected on is on its way to the
    peer, held there, or being closed with the request on the way; and closing excludes every other state.
   */
  lemma {:induction false} SessionsAgree(nextGeneration: nat, actions: seq<Action>)
    ensures var s := Exec(LinkProtocol.Start(nextGeneration), actions);
      && (s.p.closing ==> !s.p.connecting && s.p.generation == 0)
      && (s.pOpen && s.cOpen ==>
          && (s.p.generation != 0 ==> Conn(s.c) == s.p.generation || Disconnected(s.p.generation) in s.toPeer)
          && (s.c.connected ==>
              || Connected(s.c.generation) in s.toPeer
              || s.p.generation == s.c.generation
              || (s.p.closing && s.p.closingGeneration == s.c.generation
                  && Disconnect(s.c.generation) in s.toController)))
  {
    var s := Exec(LinkProtocol.Start(nextGeneration), actions);
    RunKeeps(nextGeneration, actions);
    if s.pOpen && s.cOpen {
      if s.p.generation != 0 { HeldOrEnded(s.cut, s.toPeer); }
      if s.c.connected { HeldOrAnnounced(s.cut, s.toPeer); }
    }
  }

  /** A close of a known generation never waits for nothing: its request or its confirmation is on the way. */
  lemma {:induction false} ClosesAreAnswered(nextGeneration: nat, actions: seq<Action>)
    ensures var s := Exec(LinkProtocol.Start(nextGeneration), actions);
      s.pOpen && s.cOpen && s.p.closingGeneration != 0 ==>
        Disconnect(s.p.closingGeneration) in s.toController || Disconnected(s.p.closingGeneration) in s.toPeer
  {
    var s := Exec(LinkProtocol.Start(nextGeneration), actions);
    RunKeeps(nextGeneration, actions);
    if s.pOpen && s.cOpen && s.p.closingGeneration != 0 { HeldOrEnded(s.cut, s.toPeer); }
  }

  /**
    In every session and every run, each side has processed, in order, an initial part of what the other sent in it.
   */
  lemma {:induction false} SessionDataStaysInSession(nextGeneration: nat, actions: seq<Action>, g: nat)
    requires g != 0
    ensures var s := Exec(LinkProtocol.Start(nextGeneration), actions);
      && For(s.pGot, g) <= For(s.cSent, g)
      && For(s.cGot, g) <= For(s.pSent, g)
      && (s.pOpen && s.cOpen && s.p.generation == g ==> For(s.pGot, g) + DataFor(s.toPeer, g) == For(s.cSent, g))
      && (s.pOpen && s.cOpen && Conn(s.c) == g ==> For(s.cGot, g) + L2capFor(s.toController, g) == For(s.pSent, g))
  {
    RunKeeps(nextGeneration, actions);
    var s := Exec(LinkProtocol.Start(nextGeneration), actions);
    assert DownwardIntact(s, g) && UpwardIntact(s, g);
  }
}
