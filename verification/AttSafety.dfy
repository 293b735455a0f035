/** What the ATT queue keeps through every run, re-entrant callbacks, retries and teardowns included. */
module AttSafety {
  import opened Bits
  import opened AttQueue

  predicate Ordered(sent: seq<nat>) {
    forall i, j :: 0 <= i < j < |sent| ==> sent[i] <= sent[j]
  }

  /**
    The completed requests are 0, 1, 2, ... and the queued ones follow on, up to the number accepted.
    PDUs went out in request order, none beyond the front request.
   */
  predicate Numbered(a: Att) {
    && |a.completed| + |a.requests| == |a.accepted|
    && (forall i :: 0 <= i < |a.completed| ==> a.completed[i].id == i)
    && (forall i :: 0 <= i < |a.requests| ==> a.requests[i].id == |a.completed| + i)
    && (forall i :: 0 <= i < |a.requests| ==> a.requests[i].longValue == a.accepted[|a.completed| + i].longValue)
    && Ordered(a.sent)
    && (forall i :: 0 <= i < |a.sent| ==> a.sent[i] <= |a.completed| && a.sent[i] < |a.accepted|)
  }

  predicate Bounded(a: Att) {
    && DEFAULT_MTU <= a.mtu <= MAX_MTU
    && DEFAULT_MTU <= a.localMtu <= MAX_MTU
    && |a.requests| <= MAX_PENDING
    && forall r :: r in a.requests ==> RequestOk(r)
  }

  /** One PDU outstanding while busy, none otherwise; nothing is queued without a link. */
  predicate Paced(a: Att) {
    && (a.busy ==> a.requests != [] && !a.securityPending)
    && (!a.connected ==> a.requests == [])
    && a.outstanding == if a.busy then 1 else 0
  }

  predicate QueueInv(a: Att) {
    Numbered(a) && Bounded(a) && Paced(a)
  }

  /** History only grows. */
  predicate Extends(a: Att, b: Att) {
    && a.completed <= b.completed
    && a.sent <= b.sent
    && a.accepted <= b.accepted
  }

  function Start(): Att {
    Att(false, [], false, false, Idle, DEFAULT_MTU, DEFAULT_MTU, false, [], 0, [], [])
  }

  lemma {:induction false} PreparedOk(r: Request, mtu: nat, offset: nat)
    requires |r.packet| >= 3 && offset < |r.longValue| <= MAX_VALUE && mtu >= DEFAULT_MTU && r.kind == Plain
    requires r.prepareError == 0
    ensures var q := PrepareAt(r, mtu, offset);
      RequestOk(q) && Preparing(q) && FragmentStart(q) == offset
        && FragmentEnd(q) == offset + |Fragment(r.longValue, mtu, offset)|
  {
    var q := PrepareAt(r, mtu, offset);
    assert q.packet[3..5] == Le16(offset);
    assert q.packet[5..] == Fragment(r.longValue, mtu, offset);
    ReadWritten(offset, []);
  }

  lemma {:induction false} SendNextKeeps(a: Att)
    requires QueueInv(a)
    ensures QueueInv(SendNext(a)) && Extends(a, SendNext(a))
  {
  }

  lemma {:induction false} EnqueueKeeps(a: Att, kind: Kind, packet: Bytes, longValue: Bytes)
    requires QueueInv(a)
    requires packet != [] && packet[0] % 2 == 0 && packet[0] != OP_PREPARE && packet[0] != OP_EXECUTE
    requires longValue != [] ==> |packet| == 3 && kind == Plain && |longValue| <= MAX_VALUE
    requires kind.Mtu? ==> DEFAULT_MTU <= kind.maximum <= MAX_MTU && packet[0] == OP_MTU_REQUEST
    ensures QueueInv(Enqueue(a, kind, packet, longValue).0)
    ensures Extends(a, Enqueue(a, kind, packet, longValue).0)
  {
    if a.connected && |a.requests| < MAX_PENDING {
      var r := Request(|a.accepted|, kind, packet, longValue, 0);
      if longValue != [] { PreparedOk(r, a.mtu, 0); }
      var pending := if longValue != [] then PrepareAt(r, a.mtu, 0) else r;
      SendNextKeeps(a.(requests := a.requests + [pending], accepted := a.accepted + [Asked(packet, longValue)]));
    }
  }

  lemma {:induction false} ExchangeMtuKeeps(a: Att, maximum: nat)
    requires QueueInv(a) && DEFAULT_MTU <= maximum <= MAX_MTU
    ensures QueueInv(ExchangeMtu(a, maximum).0)
    ensures Extends(a, ExchangeMtu(a, maximum).0)
  {
    if !a.mtuExchanged { EnqueueKeeps(a.(localMtu := maximum), Mtu(maximum), [OP_MTU_REQUEST] + Le16(maximum), []); }
  }

  lemma {:induction false} WriteKeeps(a: Att, handle: nat, value: Bytes)
    requires QueueInv(a) && handle < 0x10000
    ensures QueueInv(Write(a, handle, value).0)
    ensures Extends(a, Write(a, handle, value).0)
  {
    if |value| > MAX_VALUE {
    } else if |value| > a.mtu - 3 {
      EnqueueKeeps(a, Plain, [OP_WRITE] + Le16(handle), value);
    } else {
      EnqueueKeeps(a, Plain, [OP_WRITE] + Le16(handle) + value, []);
    }
  }

  /** Closing completes every queued request, in order, and needs no promise about the outstanding PDU. */
  lemma {:induction false} ClearKeeps(a: Att)
    requires Numbered(a)
    ensures QueueInv(Clear(a))
    ensures Extends(a, Clear(a))
    ensures Clear(a).requests == []
    ensures |Clear(a).completed| == |a.accepted|
  {
  }

  lemma {:induction false} PerformKeeps(a: Att, call: Call)
    requires QueueInv(a) && CallOk(call)
    ensures QueueInv(Perform(a, call)) && Extends(a, Perform(a, call))
  {
    match call {
      case Issue(packet, longValue) => EnqueueKeeps(a, Plain, packet, longValue);
      case Exchange(maximum) => ExchangeMtuKeeps(a, maximum);
      case Teardown => ClearKeeps(a);
    }
  }

  lemma {:induction false} ReentrantKeeps(a: Att, calls: seq<Call>)
    requires QueueInv(a) && forall c :: c in calls ==> CallOk(c)
    ensures QueueInv(Reentrant(a, calls)) && Extends(a, Reentrant(a, calls))
    decreases |calls|
  {
    if calls != [] {
      PerformKeeps(a, calls[0]);
      ReentrantKeeps(Perform(a, calls[0]), calls[1..]);
    }
  }

  /** The queue after its front request has been taken off as completed. */
  function Popped(a: Att, error: Byte, value: Bytes, told: bool): Att
    requires a.requests != []
  {
    a.(requests := a.requests[1..], busy := false,
       completed := a.completed + [Completion(a.requests[0].id, error, value, Answered, told)])
  }

  lemma {:induction false} PoppedKeeps(a: Att, error: Byte, value: Bytes, told: bool)
    requires Numbered(a) && Bounded(a) && a.requests != [] && a.connected && !a.securityPending && a.outstanding == 0
    ensures QueueInv(Popped(a, error, value, told))
    ensures Extends(a, Popped(a, error, value, told))
    ensures RequestOk(a.requests[0])
  {
    assert forall r :: r in a.requests[1..] ==> r in a.requests;
  }

  lemma {:induction false} AgreeKeeps(a: Att, mtu: nat)
    requires QueueInv(a) && DEFAULT_MTU <= mtu <= MAX_MTU
    ensures QueueInv(a.(mtu := mtu, mtuExchanged := true))
  {
  }

  lemma {:induction false} FinishKeeps(a: Att, error: Byte, value: Bytes, calls: seq<Call>)
    requires Numbered(a) && Bounded(a) && a.requests != [] && a.connected && !a.securityPending && a.outstanding == 0
    requires forall c :: c in calls ==> CallOk(c)
    ensures match Finish(a, error, value, calls)
      case Returns(b) => QueueInv(b) && Extends(a, b)
      case Throws(b) => Numbered(b) && Extends(a, b)
  {
    hide Numbered, Paced;
    var front := a.requests[0];
    var exchange := front.kind.Mtu? && error == 0;
    var told := !exchange || MtuResponseOk(value);
    var popped := Popped(a, error, value, told);
    PoppedKeeps(a, error, value, told);
    if told {
      var mtu := if exchange then Min(if a.mtuExchanged then a.mtu else front.kind.maximum, ReadLe16(value)) else a.mtu;
      AgreeKeeps(popped, mtu);
      var agreed := if exchange then popped.(mtu := mtu, mtuExchanged := true) else popped;
      ReentrantKeeps(agreed, calls);
      SendNextKeeps(Reentrant(agreed, calls));
    }
  }

  lemma {:induction false} AfterPrepareOk(r: Request, mtu: nat, error: Byte)
    requires RequestOk(r) && Preparing(r) && r.longValue != [] && mtu >= DEFAULT_MTU
    ensures RequestOk(AfterPrepare(r, mtu, error))
    ensures AfterPrepare(r, mtu, error).id == r.id
    ensures AfterPrepare(r, mtu, error).longValue == r.longValue
  {
    if error == 0 && FragmentEnd(r) < |r.longValue| { PreparedOk(r, mtu, FragmentEnd(r)); }
  }

  lemma {:induction false} ReplacedKeeps(a: Att, g: Request)
    requires Numbered(a) && Bounded(a) && a.requests != [] && a.connected && !a.securityPending && a.outstanding == 0
    requires RequestOk(g) && g.id == a.requests[0].id && g.longValue == a.requests[0].longValue
    ensures QueueInv(a.(busy := false, requests := [g] + a.requests[1..]))
  {
    hide RequestOk;
  }

  /** The next phase of a long write goes out with no other request in between. */
  lemma {:induction false} PrepareStepKeeps(a: Att, fault: Byte)
    requires Numbered(a) && Bounded(a) && a.requests != [] && a.connected && !a.securityPending && a.busy
    requires a.outstanding == 0
    requires Preparing(a.requests[0]) && 0 < |a.requests[0].longValue| <= MAX_VALUE
    ensures var next := a.(busy := false, requests := [AfterPrepare(a.requests[0], a.mtu, fault)] + a.requests[1..]);
      QueueInv(SendNext(next)) && Extends(a, SendNext(next))
  {
    var front := a.requests[0];
    assert RequestOk(front);
    AfterPrepareOk(front, a.mtu, fault);
    hide AfterPrepare, RequestOk, Preparing;
    var g := AfterPrepare(front, a.mtu, fault);
    ReplacedKeeps(a, g);
    SendNextKeeps(a.(busy := false, requests := [g] + a.requests[1..]));
  }

  lemma {:induction false} ReceiveResponseKeeps(a: Att, pdu: Bytes, calls: seq<Call>)
    requires Numbered(a) && Bounded(a) && a.requests != [] && a.connected && !a.securityPending && a.busy
    requires a.outstanding == 0
    requires RequestOk(a.requests[0])
    requires pdu != [] && forall c :: c in calls ==> CallOk(c)
    ensures match ReceiveResponse(a, pdu, calls)
      case Returns(b) => QueueInv(b) && Extends(a, b)
      case Throws(b) => Numbered(b) && Extends(a, b)
  {
    hide QueueInv, Numbered, Bounded, Paced, Extends, Finish, SendNext, AfterPrepare;
    var front := a.requests[0];
    var error := if pdu[0] == OP_ERROR && |pdu| == 5 then pdu[4] else 0;
    WaitingKeeps(a);
    if Preparing(front) && front.longValue != [] {
      PrepareStepKeeps(a, if error == 0 && pdu[1..] != front.packet[1..] then BAD_ECHO else error);
    }
    FinishKeeps(a, error, if error != 0 then [] else pdu[1..], calls);
    FinishKeeps(a, front.prepareError, [], calls);
  }

  /** Holding the front request back until the link is encrypted. */
  lemma {:induction false} WaitingKeeps(a: Att)
    requires Numbered(a) && Bounded(a) && a.requests != [] && a.connected && a.outstanding == 0
    ensures var b := a.(busy := false, securityPending := true, security := Working);
      QueueInv(b) && Extends(a, b) && Extends(a, a)
    ensures a.mtu >= DEFAULT_MTU
  {
    hide RequestOk;
  }

  /** A handler that throws closes the link. */
  function Handle(a: Att, pdu: Bytes, calls: seq<Call>): Att
    requires a.mtu >= DEFAULT_MTU && (forall c :: c in calls ==> CallOk(c))
    requires (forall r :: r in a.requests ==> RequestOk(r))
  {
    match Receive(a, pdu, calls)
    case Returns(b) => b
    case Throws(b) => Clear(b)
  }

  lemma {:induction false} HandleKeeps(a: Att, pdu: Bytes, calls: seq<Call>)
    requires QueueInv(a) && forall c :: c in calls ==> CallOk(c)
    ensures QueueInv(Handle(a, pdu, calls)) && Extends(a, Handle(a, pdu, calls))
  {
    ReceiveKeeps(a, pdu, calls);
    match Receive(a, pdu, calls) {
      case Returns(b) =>
      case Throws(b) => ClearKeeps(b);
    }
  }

  lemma {:induction false} ReceiveKeeps(a: Att, pdu: Bytes, calls: seq<Call>)
    requires QueueInv(a) && forall c :: c in calls ==> CallOk(c)
    ensures match Receive(a, pdu, calls)
      case Returns(b) => QueueInv(b) && Extends(a, b)
      case Throws(b) => Numbered(b) && Extends(a, b)
  {
    hide ReceiveResponse, Numbered;
    var answered := a.(outstanding := a.outstanding - 1);
    if a.busy && pdu != [] {
      assert RequestOk(a.requests[0]);
      assert Numbered(answered) by { NumberedIgnoresPace(a); }
      ReceiveResponseKeeps(answered, pdu, calls);
    }
    if pdu != [] && pdu[0] == OP_MTU_REQUEST && |pdu| == 3 {
      assert Numbered(a.(mtu := Min(a.localMtu, ReadLe16(pdu[1..])), mtuExchanged := true))
        by { NumberedIgnoresMtu(a, Min(a.localMtu, ReadLe16(pdu[1..]))); }
    }
  }

  lemma {:induction false} NumberedIgnoresPace(a: Att)
    requires Numbered(a)
    ensures Numbered(a.(outstanding := a.outstanding - 1))
  {
  }

  lemma {:induction false} NumberedIgnoresMtu(a: Att, mtu: nat)
    requires Numbered(a)
    ensures Numbered(a.(mtu := mtu, mtuExchanged := true))
  {
  }

  // ----- Every run -----

  datatype Event =
    | Does(call: Call)
    | Writes(handle: nat, value: Bytes)
    | Opens(bonded: bool)
    | Receives(pdu: Bytes, calls: seq<Call>)
    | Secures

  predicate EventOk(e: Event) {
    match e
    case Does(call) => CallOk(call)
    case Writes(handle, _) => handle < 0x10000
    case Receives(_, calls) => forall c :: c in calls ==> CallOk(c)
    case _ => true
  }

  function Apply(a: Att, e: Event): Att
    requires QueueInv(a) && EventOk(e)
  {
    match e
    case Does(call) => Perform(a, call)
    case Writes(handle, value) => Write(a, handle, value).0
    case Opens(bonded) => Open(a, bonded)
    case Receives(pdu, calls) => Handle(a, pdu, calls)
    case Secures => SecurityReady(a)
  }

  lemma {:induction false} ApplyKeeps(a: Att, e: Event)
    requires QueueInv(a) && EventOk(e)
    ensures QueueInv(Apply(a, e)) && Extends(a, Apply(a, e))
  {
    match e {
      case Does(call) => PerformKeeps(a, call);
      case Writes(handle, value) => WriteKeeps(a, handle, value);
      case Opens(bonded) =>
      case Receives(pdu, calls) => HandleKeeps(a, pdu, calls);
      case Secures =>
        if a.security.Working? { SendNextKeeps(a.(security := Encrypted, securityPending := false)); }
    }
  }

  function Exec(events: seq<Event>): (a: Att)
    requires forall e :: e in events ==> EventOk(e)
    ensures QueueInv(a)
  {
    if events == [] then Start()
    else
      var before := Exec(events[..|events| - 1]);
      ApplyKeeps(before, events[|events| - 1]);
      Apply(before, events[|events| - 1])
  }

  /**
    Every run: accepted requests complete exactly once and in acceptance order, those not yet completed being
    exactly the queued ones; request PDUs go out in that order, so that those of one request - a long write's
    fragments - are never interleaved with another's; at most one is outstanding; and the MTU stays in range.
   */
  lemma {:induction false} RequestsCompleteInOrder(events: seq<Event>)
    requires forall e :: e in events ==> EventOk(e)
    ensures var a := Exec(events);
      && (forall i :: 0 <= i < |a.completed| ==> a.completed[i].id == i)
      && (forall i :: 0 <= i < |a.requests| ==> a.requests[i].id == |a.completed| + i)
      && |a.completed| + |a.requests| == |a.accepted|
      && (forall i, j :: 0 <= i < j < |a.sent| ==> a.sent[i] <= a.sent[j])
      && 0 <= a.outstanding <= 1 && (a.outstanding == 1 ==> a.busy)
      && DEFAULT_MTU <= a.mtu <= MAX_MTU
      && (!a.connected ==> |a.completed| == |a.accepted|)
  {
  }

  /** What has been reported stays reported. */
  lemma {:induction false} HistoryOnlyGrows(events: seq<Event>, n: nat)
    requires n <= |events| && forall e :: e in events ==> EventOk(e)
    ensures Extends(Exec(events[..n]), Exec(events))
    decreases |events|
  {
    if n < |events| {
      var before := events[..|events| - 1];
      assert before[..n] == events[..n];
      HistoryOnlyGrows(events[..|events| - 1], n);
      ApplyKeeps(Exec(before), events[|events| - 1]);
    } else {
      assert events[..n] == events;
    }
  }

  // ----- Callers of an MTU exchange -----

  /** Every completion added on the way from `a` to `b` reached its caller. */
  predicate NewlyTold(a: Att, b: Att) {
    a.completed <= b.completed && forall i :: |a.completed| <= i < |b.completed| ==> b.completed[i].told
  }

  lemma {:induction false} ReentrantTold(a: Att, calls: seq<Call>)
    requires a.mtu >= DEFAULT_MTU && forall c :: c in calls ==> CallOk(c)
    ensures NewlyTold(a, Reentrant(a, calls))
    decreases |calls|
  {
    if calls != [] {
      assert NewlyTold(a, Perform(a, calls[0]));
      ReentrantTold(Perform(a, calls[0]), calls[1..]);
    }
  }

  /** A successful MTU response the client cannot use. */
  predicate UnusableMtuResponse(a: Att, e: Event) {
    && e.Receives?
    && a.busy
    && a.requests != []
    && a.requests[0].kind.Mtu?
    && e.pdu != []
    && |e.pdu| <= a.mtu
    && e.pdu[0] == 0x03
    && !MtuResponseOk(e.pdu[1..])
  }

  lemma {:induction false} FinishTold(a: Att, error: Byte, value: Bytes, calls: seq<Call>)
    requires a.requests != [] && RequestOk(a.requests[0]) && a.mtu >= DEFAULT_MTU
    requires forall c :: c in calls ==> CallOk(c)
    ensures match Finish(a, error, value, calls)
      case Returns(b) => NewlyTold(a, b) && (a.requests[0].kind.Mtu? && error == 0 ==> MtuResponseOk(value))
      case Throws(b) =>
        !NewlyTold(a, b) && a.requests[0].kind.Mtu? && error == 0 && !MtuResponseOk(value) && a.completed <= b.completed
  {
    hide Reentrant, SendNext, Preparing, Executing;
    var exchange := a.requests[0].kind.Mtu? && error == 0;
    if !exchange || MtuResponseOk(value) {
      var popped := Popped(a, error, value, true);
      var mtu :=
        if exchange then Min(if a.mtuExchanged then a.mtu else a.requests[0].kind.maximum, ReadLe16(value)) else a.mtu;
      var agreed := if exchange then popped.(mtu := mtu, mtuExchanged := true) else popped;
      ReentrantTold(agreed, calls);
      SendNextTold(Reentrant(agreed, calls));
      PoppedTold(a, agreed, error, value, SendNext(Reentrant(agreed, calls)));
    } else {
      PoppedUntold(a, error, value);
    }
  }

  lemma {:induction false} SendNextTold(a: Att)
    ensures SendNext(a).completed == a.completed
  {
  }

  lemma {:induction false} PoppedTold(a: Att, b: Att, error: Byte, value: Bytes, c: Att)
    requires a.requests != [] && b.completed == Popped(a, error, value, true).completed && NewlyTold(b, c)
    ensures NewlyTold(a, c)
  {
    assert a.completed <= b.completed;
    assert c.completed[|a.completed|] == b.completed[|a.completed|];
  }

  lemma {:induction false} PoppedUntold(a: Att, error: Byte, value: Bytes)
    requires a.requests != []
    ensures !NewlyTold(a, Popped(a, error, value, false))
    ensures a.completed <= Popped(a, error, value, false).completed
  {
    assert !Popped(a, error, value, false).completed[|a.completed|].told;
  }

  lemma {:induction false} PerformTold(a: Att, call: Call)
    requires a.mtu >= DEFAULT_MTU && CallOk(call)
    ensures NewlyTold(a, Perform(a, call))
  {
  }

  lemma {:induction false} ClearTold(a: Att, b: Att)
    requires a.completed <= b.completed
    ensures NewlyTold(a, Clear(b)) <==> NewlyTold(a, b)
  {
    var c := Clear(b);
    assert forall i :: 0 <= i < |b.completed| ==> c.completed[i] == b.completed[i];
  }

  lemma {:induction false} ResponseTold(a: Att, pdu: Bytes, calls: seq<Call>)
    requires a.mtu >= DEFAULT_MTU && (forall c :: c in calls ==> CallOk(c)) && a.requests != []
    requires RequestOk(a.requests[0]) && pdu != []
    ensures var b := ReceiveResponse(a, pdu, calls).a;
      a.completed <= b.completed
        && (NewlyTold(a, b) <==> !(a.requests[0].kind.Mtu? && pdu[0] == 0x03 && !MtuResponseOk(pdu[1..])))
  {
    hide Finish;
    var front := a.requests[0];
    var error := if pdu[0] == OP_ERROR && |pdu| == 5 then pdu[4] else 0;
    FinishTold(a, error, if error != 0 then [] else pdu[1..], calls);
    FinishTold(a, front.prepareError, [], calls);
  }

  /**
    An event leaves some caller without an answer exactly when it is a success response to an MTU exchange
    whose value is not two bytes or is below 23: the queue's own callback throws before it calls on.
   */
  lemma {:induction false} CallersAreTold(a: Att, e: Event)
    requires QueueInv(a) && EventOk(e)
    ensures NewlyTold(a, Apply(a, e)) <==> !UnusableMtuResponse(a, e)
  {
    match e {
      case Does(call) => PerformTold(a, call);
      case Receives(pdu, calls) =>
        hide ReceiveResponse;
        var r := Receive(a, pdu, calls).a;
        if a.busy && pdu != [] {
          assert RequestOk(a.requests[0]);
          ResponseTold(a.(outstanding := a.outstanding - 1), pdu, calls);
        }
        ClearTold(a, r);
      case _ =>
    }
  }

  lemma {:induction false} ExecOneMore(events: seq<Event>, e: Event)
    requires (forall f :: f in events ==> EventOk(f)) && EventOk(e)
    ensures (forall f :: f in events + [e] ==> EventOk(f)) && Exec(events + [e]) == Apply(Exec(events), e)
  {
    hide Apply, EventOk, QueueInv;
    assert (events + [e])[..|events|] == events;
  }

  lemma {:induction false} ExchangeOffered(a: Att)
    requires a == Open(Start(), false)
    ensures QueueInv(a)
    ensures var b := Apply(a, Does(Exchange(100)));
      && b.busy
      && b.requests == [Request(0, Mtu(100), [OP_MTU_REQUEST, 100, 0], [], 0)]
      && b.mtu == 23
      && b.completed == []
      && b.outstanding == 1
  {
    assert [OP_MTU_REQUEST] + Le16(100) == [OP_MTU_REQUEST, 100, 0];
    assert QueueInv(a);
  }

  lemma {:induction false} UnusableMtuRefused(b: Att)
    requires QueueInv(b) && b.busy && b.mtu == 23 && b.completed == [] && b.outstanding == 1
    requires b.requests == [Request(0, Mtu(100), [OP_MTU_REQUEST, 100, 0], [], 0)]
    ensures Apply(b, Receives([0x03, 22, 0], [])).completed == [Completion(0, 0, [22, 0], Answered, false)]
  {
    var pdu: Bytes := [0x03, 22, 0];
    var answered := b.(outstanding := 0);
    assert pdu[1..] == [22, 0] && !MtuResponseOk(pdu[1..]);
    assert ReceiveResponse(answered, pdu, []) == Finish(answered, 0, pdu[1..], []);
    assert Finish(answered, 0, pdu[1..], []) == Throws(Popped(answered, 0, [22, 0], false));
    hide ReceiveResponse, Finish;
    assert Clear(Popped(answered, 0, [22, 0], false)).completed == [Completion(0, 0, [22, 0], Answered, false)];
  }

  const LOSING: seq<Event> := [Opens(false), Does(Exchange(100)), Receives([0x03, 22, 0], [])]

  /** A run in which a caller is not told: the server answers the exchange with an MTU of 22. */
  lemma {:induction false} InvalidMtuResponseLosesCaller()
    ensures forall e :: e in LOSING ==> EventOk(e)
    ensures Exec(LOSING).accepted != []
    ensures Exec(LOSING).completed == [Completion(0, 0, [22, 0], Answered, false)]
  {
    hide Apply, Exec, QueueInv;
    ExecOneMore([], LOSING[0]);
    ExecOneMore([LOSING[0]], LOSING[1]);
    ExecOneMore([LOSING[0], LOSING[1]], LOSING[2]);
    assert [] + [LOSING[0]] == [LOSING[0]] && [LOSING[0]] + [LOSING[1]] == [LOSING[0], LOSING[1]];
    assert [LOSING[0], LOSING[1]] + [LOSING[2]] == LOSING;
    ExecNothing();
    OpensFirst();
    ExchangeOffered(Open(Start(), false));
    UnusableMtuRefused(Exec([LOSING[0], LOSING[1]]));
    RunNumbered(LOSING);
  }

  lemma {:induction false} ExecNothing()
    ensures Exec([]) == Start()
  {
  }

  lemma {:induction false} OpensFirst()
    ensures QueueInv(Start())
    ensures Apply(Start(), Opens(false)) == Open(Start(), false)
  {
  }

  lemma {:induction false} RunNumbered(events: seq<Event>)
    requires forall e :: e in events ==> EventOk(e)
    ensures |Exec(events).completed| <= |Exec(events).accepted|
  {
    hide Exec;
    assert QueueInv(Exec(events));
  }
}
