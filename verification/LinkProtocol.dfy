/**
  The virtual BLE link as a state machine: the controller inside QEMU, the peer in the frontend,
  and the two FIFO channels of the socket between them.
 */
module LinkProtocol {
  import opened Bits

  type Sdu = seq<Byte>

  /** What reassembling a GATT publication comes to at this level. */
  datatype Publication = Chunk | Unusable | Complete(catalog: int)

  datatype ToPeer =
    | Advertising(on: bool, data: int)
    | Connected(g: nat)
    | Disconnected(g: nat)
    | Data(g: nat, sdu: Sdu)
    | Encryption(g: nat, status: Byte)
    | Rejected(g: nat)
    | Reset
    | GattDatabase(part: Publication)

  datatype ToController =
    | Connect
    | Disconnect(g: nat)
    | L2cap(g: nat, sdu: Sdu)
    | Encrypt(g: nat)

  // ----- The controller -----

  /** `generation` keeps its last value after a disconnection. */
  datatype Controller = Controller(enabled: bool, advertising: bool, connectable: bool, connected: bool,
                                   generation: nat, nextGeneration: nat, encrypted: bool, keyPending: bool)

  /** The generation the controller is connected on, 0 for none. */
  function Conn(c: Controller): nat {
    if c.connected then c.generation else 0
  }

  function ControllerDisconnect(c: Controller): (Controller, seq<ToPeer>) {
    if !c.connected then (c, [])
    else (c.(connected := false, encrypted := false, keyPending := false), [Disconnected(c.generation)])
  }

  function ControllerReset(c: Controller): (Controller, seq<ToPeer>) {
    var (d, out) := ControllerDisconnect(c);
    (d.(advertising := false, connectable := true), out + [Reset])
  }

  /** The controller's reaction: its new state, what it sends, and the session data it passes to its host. */
  function ControllerReact(c: Controller, m: ToController): (Controller, seq<ToPeer>, seq<(nat, Sdu)>) {
    if !m.Connect? && (!c.connected || m.g != c.generation) then (c, [Rejected(m.g)], [])
    else
      match m
      case Connect =>
        if c.connected || !c.advertising || !c.enabled || !c.connectable then (c, [Rejected(0)], [])
        else
          var g := c.nextGeneration + 1;
          (c.(generation := g, nextGeneration := g, connected := true, advertising := false,
              encrypted := false, keyPending := false),
           [Connected(g)], [])
      case Disconnect(_) =>
        var (d, out) := ControllerDisconnect(c);
        (d, out, [])
      case L2cap(g, sdu) => (c, [], [(g, sdu)])
      case Encrypt(g) =>
        if c.keyPending || c.encrypted then (c, [Rejected(g)], []) else (c.(keyPending := true), [], [])
  }

  function ControllerReceive(c: Controller, m: ToController): (Controller, seq<ToPeer>) {
    (ControllerReact(c, m).0, ControllerReact(c, m).1)
  }

  // ----- The peer -----

  datatype Peer = Peer(enabled: bool, failed: bool, advertising: bool, advertisement: int,
                       connecting: bool, closing: bool, ready: bool, sessionRequested: bool,
                       generation: nat, closingGeneration: nat, catalogReady: bool, catalog: int)

  function ClearLink(p: Peer): Peer {
    p.(generation := 0, connecting := false, ready := false, sessionRequested := false)
  }

  function PeerDisconnect(p: Peer): (Peer, seq<ToController>) {
    if p.closing then (p, [])
    else (ClearLink(p.(closing := p.generation != 0 || p.connecting, closingGeneration := p.generation)),
          if p.generation != 0 then [Disconnect(p.generation)] else [])
  }

  function Invalidate(p: Peer): Peer {
    p.(catalogReady := false)
  }

  /** An exception reached the polling loop. */
  function PeerFail(p: Peer): (Peer, seq<ToController>) {
    var (q, out) := PeerDisconnect(p.(failed := true));
    (Invalidate(q), out)
  }

  /** Everything a lost or restarted transport leaves behind. */
  function PeerForget(p: Peer): Peer {
    Invalidate(ClearLink(p.(advertising := false, closing := false, closingGeneration := 0)))
  }

  predicate Available(p: Peer) {
    && p.catalogReady
    && p.enabled
    && !p.failed
    && !p.closing
    && (p.advertising || p.generation != 0 || p.connecting || p.sessionRequested)
  }

  predicate WantsConnection(p: Peer) {
    && p.enabled
    && !p.failed
    && p.advertising
    && p.generation == 0
    && !p.connecting
    && !p.closing
    && p.sessionRequested
  }

  function PeerAdvertisement(p: Peer, on: bool, data: int): (Peer, seq<ToController>) {
    var changed := data != p.advertisement;
    var q := p.(advertising := on, advertisement := data);
    if (p.catalogReady && changed) || (!on && p.generation == 0 && !p.connecting && !p.closing) then
      var (r, out) := PeerDisconnect(q);
      (Invalidate(r), out)
    else (q, [])
  }

  function PeerPublication(p: Peer, part: Publication): (Peer, seq<ToController>) {
    match part
    case Chunk => (p, [])
    case Unusable => PeerFail(p)
    case Complete(catalog) =>
      if p.catalogReady && catalog == p.catalog then (p, [])
      else
        var (q, out) := PeerDisconnect(p);
        (q.(catalog := catalog, catalogReady := true), out)
  }

  /** Data reaches the upper layers only under this condition. */
  predicate PeerAccepts(p: Peer, g: nat) {
    g == p.generation && p.generation != 0
  }

  /** The peer's reaction: its new state, what it sends, and the session data it passes to the upper layers. */
  function PeerReact(p: Peer, m: ToPeer): (Peer, seq<ToController>, seq<(nat, Sdu)>) {
    match m
    case GattDatabase(part) => var (q, out) := PeerPublication(p, part); (q, out, [])
    case Reset => (PeerForget(p.(failed := false)), [], [])
    case Advertising(on, data) => var (q, out) := PeerAdvertisement(p, on, data); (q, out, [])
    case Connected(g) =>
      if g == 0 then var (q, out) := PeerFail(p); (q, out, [])
      else if !p.connecting || !p.enabled then (p.(closing := true, closingGeneration := g), [Disconnect(g)], [])
      else (p.(generation := g, connecting := false, advertising := false), [], [])
    case Rejected(g) =>
      if g != 0 && g != p.generation then (p, [], []) else var (q, out) := PeerFail(p); (q, out, [])
    case Disconnected(g) =>
      if p.closing && g == p.closingGeneration then (p.(closing := false, closingGeneration := 0), [], [])
      else if !PeerAccepts(p, g) then (p, [], [])
      else (ClearLink(p), [], [])
    case Data(g, sdu) => (p, [], if PeerAccepts(p, g) then [(g, sdu)] else [])
    case Encryption(_, _) => (p, [], [])
  }

  function PeerReceive(p: Peer, m: ToPeer): (Peer, seq<ToController>) {
    (PeerReact(p, m).0, PeerReact(p, m).1)
  }

  function PeerSetEnabled(p: Peer, enabled: bool): (Peer, seq<ToController>) {
    if enabled == p.enabled then (p, [])
    else if enabled then (p.(enabled := true, failed := false), [])
    else PeerDisconnect(p.(enabled := false))
  }

  // ----- The whole link -----

  /**
    Both ends and both channels. An end that is not open neither sends nor receives.
    The rest is history: `cut` stamps the controller as it was when it sent the message the peer
    last took from its channel; the four logs record session data.
   */
  datatype Link = Link(c: Controller, p: Peer, cOpen: bool, pOpen: bool,
                       toPeer: seq<ToPeer>, toController: seq<ToController>,
                       cut: Stamp, cSent: seq<(nat, Sdu)>, pGot: seq<(nat, Sdu)>, pSent: seq<(nat, Sdu)>,
                         cGot: seq<(nat, Sdu)>)

  datatype Action =
    // The controller takes a message; its host acts.
    | ControllerTakes
    | HostDisconnects
    | HostResets
    | HostDisables
    | HostEnables
    | HostAdvertises(on: bool, data: int, connectable: bool)
    | HostSends(sdu: Sdu)
    | EncryptionFinishes(status: Byte)
    | HostPublishes(part: Publication)
    // The peer takes a message; its users and timers act.
    | PeerTakes
    | PeerConnects
    | PeerFails
    | SetupTimesOut
    | UserDisconnects
    | UserEnables(on: bool)
    | UserStartsSession
    | DiscoveryEnds
    | PeerSends(sdu: Sdu)
    | PeerAsksEncryption
    // The transport breaks at one end, which what was not yet flushed does not survive.
    | ControllerCloses(flushed: nat)
    | PeerCloses(flushed: nat)
    | ControllerNotices
    | PeerNotices
    | PeerRestarts(flushed: nat)
    | Reopens(nextGeneration: nat)

  predicate ByController(a: Action) {
    || a.ControllerTakes? || a.HostDisconnects? || a.HostResets? || a.HostDisables? || a.HostEnables?
    || a.HostAdvertises? || a.HostSends? || a.EncryptionFinishes? || a.HostPublishes?
  }

  predicate ByTransport(a: Action) {
    || a.ControllerCloses? || a.PeerCloses? || a.ControllerNotices? || a.PeerNotices?
    || a.PeerRestarts? || a.Reopens?
  }

  function WithController(s: Link, r: (Controller, seq<ToPeer>)): Link {
    s.(c := r.0, toPeer := if s.cOpen && s.pOpen then s.toPeer + r.1 else s.toPeer)
  }

  function WithPeer(s: Link, r: (Peer, seq<ToController>)): Link {
    s.(p := r.0, toController := if s.cOpen && s.pOpen then s.toController + r.1 else s.toController)
  }

  function Min(a: nat, b: nat): nat {
    if a < b then a else b
  }

  /** The message is off the channel, and what it passes to the controller's host is recorded. */
  function ControllerTook(s: Link): Link
    requires s.toController != []
  {
    s.(toController := s.toController[1..], cGot := s.cGot + ControllerReact(s.c, s.toController[0]).2)
  }

  function ControllerTakesNext(s: Link): Link {
    if !s.cOpen || s.toController == [] then s
    else WithController(ControllerTook(s), ControllerReceive(s.c, s.toController[0]))
  }

  /** The message is off the channel, and what it passes to the peer's upper layers is recorded. */
  function PeerTook(s: Link): Link
    requires s.toPeer != []
  {
    var m := s.toPeer[0];
    s.(toPeer := s.toPeer[1..], cut := After(s.cut, m), pGot := s.pGot + PeerReact(s.p, m).2)
  }

  function PeerTakesNext(s: Link): Link {
    if !s.pOpen || s.toPeer == [] then s
    else WithPeer(PeerTook(s), PeerReceive(s.p, s.toPeer[0]))
  }

  /** A setup deadline passed: a close that was never answered costs the transport. */
  function SetupTimeout(s: Link): Link {
    if s.p.ready || !(s.p.connecting || s.p.generation != 0 || s.p.closing) then s
    else if s.p.closing then ClosePeerEnd(s.(p := PeerFail(s.p.(closing := false, closingGeneration := 0)).0), 0)
    else WithPeer(s, PeerFail(s.p))
  }

  function ClosePeerEnd(s: Link, flushed: nat): Link {
    s.(pOpen := false, toPeer := [], toController := s.toController[..Min(flushed, |s.toController|)])
  }

  function Next(s: Link, a: Action): Link {
    match a
    case ControllerTakes => ControllerTakesNext(s)
    case HostDisconnects => WithController(s, ControllerDisconnect(s.c))
    case HostResets => WithController(s, ControllerReset(s.c))
    case HostDisables => WithController(s, ControllerReset(s.c.(enabled := false)))
    case HostEnables => s.(c := s.c.(enabled := true))
    case HostAdvertises(on, data, connectable) =>
      if s.c.connected && on then s
      else WithController(s, (s.c.(advertising := on, connectable := connectable), [Advertising(on, data)]))
    case HostSends(sdu) =>
      if !s.c.connected then s
      else WithController(s.(cSent := if s.cOpen && s.pOpen then s.cSent + [(s.c.generation, sdu)] else s.cSent),
                          (s.c, [Data(s.c.generation, sdu)]))
    case EncryptionFinishes(status) =>
      if !s.c.keyPending || !s.c.connected then s
      else WithController(s,
        (s.c.(keyPending := false, encrypted := status == 0), [Encryption(s.c.generation, status)]))
    case HostPublishes(part) => WithController(s, (s.c, [GattDatabase(part)]))
    case PeerTakes => PeerTakesNext(s)
    case PeerConnects => if WantsConnection(s.p) then WithPeer(s, (s.p.(connecting := true), [Connect])) else s
    case PeerFails => WithPeer(s, PeerFail(s.p))
    case SetupTimesOut => SetupTimeout(s)
    case UserDisconnects => WithPeer(s, PeerDisconnect(s.p))
    case UserEnables(on) => WithPeer(s, PeerSetEnabled(s.p, on))
    case UserStartsSession => if Available(s.p) then s.(p := s.p.(sessionRequested := true)) else s
    case DiscoveryEnds => if s.p.generation != 0 then s.(p := s.p.(ready := true)) else s
    case PeerSends(sdu) =>
      if s.p.generation == 0 then s
      else WithPeer(s.(pSent := if s.cOpen && s.pOpen then s.pSent + [(s.p.generation, sdu)] else s.pSent),
                    (s.p, [L2cap(s.p.generation, sdu)]))
    case PeerAsksEncryption => if s.p.generation == 0 then s else WithPeer(s, (s.p, [Encrypt(s.p.generation)]))
    case ControllerCloses(flushed) =>
      s.(cOpen := false, toController := [], toPeer := s.toPeer[..Min(flushed, |s.toPeer|)])
    case PeerCloses(flushed) => ClosePeerEnd(s, flushed)
    case ControllerNotices => if s.cOpen then s else s.(c := ControllerDisconnect(s.c).0)
    case PeerNotices => if s.pOpen then s else s.(p := PeerForget(s.p))
    case PeerRestarts(flushed) => ClosePeerEnd(s.(p := PeerForget(s.p.(failed := false))), flushed)
    case Reopens(nextGeneration) =>
      if s.pOpen then s
      else Link(FreshController(nextGeneration), PeerForget(s.p.(failed := false)), true, true, [], [], Stamp(0, 0),
        [], [], [], [])
  }

  function FreshController(nextGeneration: nat): Controller {
    Controller(false, false, true, false, 0, nextGeneration, false, false)
  }

  function Start(nextGeneration: nat): Link {
    Link(FreshController(nextGeneration),
         Peer(true, false, false, 0, false, false, false, false, 0, 0, false, 0),
         true, true, [], [], Stamp(0, 0), [], [], [], [])
  }

  function Exec(s: Link, actions: seq<Action>): Link {
    if actions == [] then s else Next(Exec(s, actions[..|actions| - 1]), actions[|actions| - 1])
  }

  // ----- The discipline of the channel to the peer -----

  /** The connection the controller was on at some moment, and the newest generation it had used. */
  datatype Stamp = Stamp(conn: nat, last: nat)

  /** The stamp just after the controller sent `m`. */
  function After(st: Stamp, m: ToPeer): Stamp {
    match m
    case Connected(g) => Stamp(g, g)
    case Disconnected(_) => st.(conn := 0)
    case _ => st
  }

  /** May `m` be sent at this moment? */
  predicate Fits(st: Stamp, m: ToPeer) {
    match m
    case Connected(g) => st.conn == 0 && g > st.last
    case Disconnected(g) => st.conn == g && g != 0
    case Data(g, _) => st.conn == g && g != 0
    case Encryption(g, _) => st.conn == g && g != 0
    case Reset => st.conn == 0
    case _ => true
  }

  predicate Orderly(st: Stamp, q: seq<ToPeer>)
    decreases |q|
  {
    q == [] || (Fits(st, q[0]) && Orderly(After(st, q[0]), q[1..]))
  }

  function AfterAll(st: Stamp, q: seq<ToPeer>): Stamp
    decreases |q|
  {
    if q == [] then st else AfterAll(After(st, q[0]), q[1..])
  }

  lemma {:induction false} AppendOne(st: Stamp, q: seq<ToPeer>, m: ToPeer)
    requires Orderly(st, q) && Fits(AfterAll(st, q), m)
    ensures Orderly(st, q + [m])
    ensures AfterAll(st, q + [m]) == After(AfterAll(st, q), m)
    decreases |q|
  {
    if q == [] {
      assert q + [m] == [m];
    } else {
      AppendOne(After(st, q[0]), q[1..], m);
      assert (q + [m])[1..] == q[1..] + [m];
    }
  }

  lemma {:induction false} PrefixOrderly(st: Stamp, q: seq<ToPeer>, k: nat)
    requires Orderly(st, q) && k <= |q|
    ensures Orderly(st, q[..k])
    decreases |q|
  {
    if k > 0 {
      PrefixOrderly(After(st, q[0]), q[1..], k - 1);
      assert q[..k][1..] == q[1..][..k - 1];
    }
  }

  /** A connection at the near end persists to the far end unless its end is announced in between. */
  lemma {:induction false} HeldOrEnded(st: Stamp, q: seq<ToPeer>)
    requires st.conn != 0 && Orderly(st, q)
    ensures AfterAll(st, q).conn == st.conn || Disconnected(st.conn) in q
    decreases |q|
  {
    if q != [] && After(st, q[0]) == st {
      HeldOrEnded(st, q[1..]);
    }
  }

  /** A connection at the far end was there at the near end or is announced in between. */
  lemma {:induction false} HeldOrAnnounced(st: Stamp, q: seq<ToPeer>)
    requires AfterAll(st, q).conn != 0
    ensures AfterAll(st, q).conn == st.conn || Connected(AfterAll(st, q).conn) in q
    decreases |q|
  {
    if q != [] {
      HeldOrAnnounced(After(st, q[0]), q[1..]);
    }
  }

  /** Announcements are of generations newer than any before. */
  lemma {:induction false} AnnouncedAreNewer(st: Stamp, q: seq<ToPeer>, g: nat)
    requires Orderly(st, q) && Connected(g) in q
    ensures g > st.last
    decreases |q|
  {
    if q[0] != Connected(g) {
      AnnouncedAreNewer(After(st, q[0]), q[1..], g);
    }
  }
}
