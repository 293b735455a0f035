/** Every request is settled after a bounded number of PDUs: a long write's remaining bytes fall with each fragment. */
module AttProgress {
  import opened Bits
  import opened AttQueue
  import opened AttSafety

  // ----- What is still to be sent -----

  function Count(sent: seq<nat>, id: nat): nat {
    if sent == [] then 0 else Count(sent[..|sent| - 1], id) + if sent[|sent| - 1] == id then 1 else 0
  }

  /** The least fragment that is not the last has 18 bytes, whatever the MTU. */
  const PIECE: nat := 18

  function Pieces(size: nat): nat {
    (size + PIECE - 1) / PIECE
  }

  /** At most this many PDUs are still to be sent for the request if the server grants them all. */
  function Steps(r: Request): nat {
    if r.longValue != [] && Preparing(r) then Pieces(|r.longValue| - FragmentStart(r)) + 1 else 1
  }

  /** The PDUs of a request: its fragments and the commit or its one PDU, and one more when encryption came late. */
  function Allowed(value: Bytes): nat {
    (if value == [] then 1 else Pieces(|value|) + 1) + 1
  }

  /** Encryption can still be asked for on this link. */
  function Retries(a: Att): nat {
    if !a.security.Encrypted? && !a.securityPending then 1 else 0
  }

  predicate FullPiece(r: Request) {
    r.longValue != [] && Preparing(r) ==>
      FragmentEnd(r) == |r.longValue| || FragmentEnd(r) >= FragmentStart(r) + PIECE
  }

  predicate WithinAllowance(a: Att) {
    forall i :: 0 <= i < |a.accepted| ==> Count(a.sent, i) <= Allowed(a.accepted[i].longValue)
  }

  predicate FullPieces(a: Att) {
    forall r :: r in a.requests ==> FullPiece(r)
  }

  /** What was sent for the front request and what is still to be sent for it stay within its allowance. */
  predicate FrontWithin(a: Att) {
    a.requests != [] ==>
      Count(a.sent, |a.completed|) + Steps(a.requests[0]) + Retries(a) <=
      Allowed(a.requests[0].longValue) + if a.busy then 1 else 0
  }

  predicate Progress(a: Att) {
    WithinAllowance(a) && FullPieces(a) && FrontWithin(a)
  }

  // ----- Arithmetic of pieces -----

  lemma {:induction false} PiecesShrink(size: nat, less: nat)
    requires less + PIECE <= size
    ensures Pieces(less) < Pieces(size)
  {
  }

  lemma {:induction false} PiecesMonotone(size: nat, less: nat)
    requires less <= size
    ensures Pieces(less) <= Pieces(size)
    ensures size > 0 ==> Pieces(size) > 0
  {
  }

  lemma {:induction false} StepsAllowed(r: Request)
    ensures 1 <= Steps(r) < Allowed(r.longValue)
  {
    hide Pieces;
    if r.longValue != [] && Preparing(r) { PiecesMonotone(|r.longValue|, |r.longValue| - FragmentStart(r)); }
  }

  lemma {:induction false} CountNone(sent: seq<nat>, id: nat)
    requires forall i :: 0 <= i < |sent| ==> sent[i] < id
    ensures Count(sent, id) == 0
  {
    if sent != [] { CountNone(sent[..|sent| - 1], id); }
  }

  lemma {:induction false} CountMore(sent: seq<nat>, id: nat, other: nat)
    ensures Count(sent + [id], other) == Count(sent, other) + if id == other then 1 else 0
  {
    assert (sent + [id])[..|sent|] == sent;
  }

  // ----- The queue's operations -----

  lemma {:induction false} SendNextProgresses(a: Att)
    requires QueueInv(a) && Progress(a)
    ensures Progress(SendNext(a))
  {
    hide Allowed, Steps, FullPiece, Count, RequestOk;
    if SendNext(a) != a {
      var front := a.requests[0];
      CountMore(a.sent, front.id, |a.completed|);
      StepsAllowed(front);
      forall i | 0 <= i < |a.accepted|
        ensures Count(a.sent + [front.id], i) <= Allowed(a.accepted[i].longValue)
      {
        CountMore(a.sent, front.id, i);
      }
    }
  }

  lemma {:induction false} PreparedFull(r: Request, mtu: nat, offset: nat)
    requires |r.packet| >= 3 && offset < |r.longValue| <= MAX_VALUE && mtu >= DEFAULT_MTU && r.kind == Plain
    requires r.prepareError == 0
    ensures FullPiece(PrepareAt(r, mtu, offset))
  {
    PreparedOk(r, mtu, offset);
    hide Preparing, RequestOk, FragmentStart, FragmentEnd;
  }

  lemma {:induction false} EnqueueProgresses(a: Att, kind: Kind, packet: Bytes, longValue: Bytes)
    requires QueueInv(a) && Progress(a)
    requires packet != [] && packet[0] % 2 == 0 && packet[0] != OP_PREPARE && packet[0] != OP_EXECUTE
    requires longValue != [] ==> |packet| == 3 && kind == Plain && |longValue| <= MAX_VALUE
    requires kind.Mtu? ==> DEFAULT_MTU <= kind.maximum <= MAX_MTU && packet[0] == OP_MTU_REQUEST
    ensures Progress(Enqueue(a, kind, packet, longValue).0)
  {
    if a.connected && |a.requests| < MAX_PENDING {
      var r := Request(|a.accepted|, kind, packet, longValue, 0);
      if longValue != [] {
        PreparedOk(r, a.mtu, 0);
        PreparedFull(r, a.mtu, 0);
      }
      var pending := if longValue != [] then PrepareAt(r, a.mtu, 0) else r;
      var b := a.(requests := a.requests + [pending], accepted := a.accepted + [Asked(packet, longValue)]);
      hide Progress, PrepareAt, SendNext, FullPiece;
      AppendedKeeps(a, pending, Asked(packet, longValue));
      AppendedProgresses(a, pending, Asked(packet, longValue));
      SendNextProgresses(b);
    }
  }

  lemma {:induction false} AppendedKeeps(a: Att, r: Request, asked: Asked)
    requires QueueInv(a) && a.connected && |a.requests| < MAX_PENDING
    requires RequestOk(r) && r.id == |a.accepted| && r.longValue == asked.longValue
    ensures QueueInv(a.(requests := a.requests + [r], accepted := a.accepted + [asked]))
  {
    hide RequestOk;
  }

  lemma {:induction false} AppendedProgresses(a: Att, r: Request, asked: Asked)
    requires QueueInv(a) && Progress(a) && FullPiece(r) && r.longValue == asked.longValue
    ensures Progress(a.(requests := a.requests + [r], accepted := a.accepted + [asked]))
  {
    hide Allowed, Steps, FullPiece, Count, RequestOk;
    StepsAllowed(r);
    CountNone(a.sent, |a.accepted|);
  }

  lemma {:induction false} ClearProgresses(a: Att)
    requires WithinAllowance(a)
    ensures Progress(Clear(a))
  {
    hide Allowed, Steps, FullPiece, Count;
  }

  lemma {:induction false} OfferProgresses(a: Att, maximum: nat)
    requires QueueInv(a) && Progress(a) && DEFAULT_MTU <= maximum <= MAX_MTU
    ensures QueueInv(a.(localMtu := maximum)) && Progress(a.(localMtu := maximum))
  {
    hide Allowed, Steps, FullPiece, Count, RequestOk;
  }

  lemma {:induction false} MtuAtLeast(a: Att)
    requires QueueInv(a)
    ensures a.mtu >= DEFAULT_MTU
  {
  }

  lemma {:induction false} PerformProgresses(a: Att, call: Call)
    requires QueueInv(a) && Progress(a) && CallOk(call)
    ensures Progress(Perform(a, call))
  {
    match call {
      case Issue(packet, longValue) =>
        hide Enqueue, Progress, QueueInv;
        EnqueueProgresses(a, Plain, packet, longValue);
      case Exchange(maximum) =>
        hide Enqueue, Progress, QueueInv;
        if !a.mtuExchanged {
          OfferProgresses(a, maximum);
          EnqueueProgresses(a.(localMtu := maximum), Mtu(maximum), [OP_MTU_REQUEST] + Le16(maximum), []);
        }
      case Teardown =>
        hide WithinAllowance, Clear;
        ClearProgresses(a);
    }
  }

  lemma {:induction false} ReentrantProgresses(a: Att, calls: seq<Call>)
    requires QueueInv(a) && Progress(a) && forall c :: c in calls ==> CallOk(c)
    ensures Progress(Reentrant(a, calls))
    decreases |calls|
  {
    hide QueueInv, Progress, Perform, CallOk;
    if calls != [] {
      MtuAtLeast(a);
      PerformKeeps(a, calls[0]);
      PerformProgresses(a, calls[0]);
      ReentrantProgresses(Perform(a, calls[0]), calls[1..]);
    }
  }

  // ----- Responses -----

  lemma {:induction false} PoppedProgresses(a: Att, error: Byte, value: Bytes, told: bool)
    requires Numbered(a) && Bounded(a) && a.requests != [] && WithinAllowance(a) && FullPieces(a)
    ensures Progress(Popped(a, error, value, told))
  {
    hide Allowed, Steps, FullPiece, Count, RequestOk;
    if |a.requests| > 1 {
      CountNone(a.sent, |a.completed| + 1);
      StepsAllowed(a.requests[1]);
    }
  }

  lemma {:induction false} AgreeProgresses(a: Att, mtu: nat)
    requires Progress(a)
    ensures Progress(a.(mtu := mtu, mtuExchanged := true))
  {
    hide Allowed, Steps, FullPiece, Count;
  }

  lemma {:induction false} FinishProgresses(a: Att, error: Byte, value: Bytes, calls: seq<Call>)
    requires Numbered(a) && Bounded(a) && a.requests != [] && a.connected && !a.securityPending && a.outstanding == 0
    requires WithinAllowance(a) && FullPieces(a) && forall c :: c in calls ==> CallOk(c)
    ensures match Finish(a, error, value, calls)
      case Returns(b) => Progress(b)
      case Throws(b) => WithinAllowance(b)
  {
    hide Numbered, Paced, Progress, WithinAllowance, FullPieces, Reentrant, SendNext;
    var front := a.requests[0];
    var exchange := front.kind.Mtu? && error == 0;
    var told := !exchange || MtuResponseOk(value);
    var popped := Popped(a, error, value, told);
    PoppedKeeps(a, error, value, told);
    PoppedProgresses(a, error, value, told);
    ProgressParts(popped);
    if told {
      var mtu := if exchange then Min(if a.mtuExchanged then a.mtu else front.kind.maximum, ReadLe16(value)) else a.mtu;
      AgreeKeeps(popped, mtu);
      AgreeProgresses(popped, mtu);
      var agreed := if exchange then popped.(mtu := mtu, mtuExchanged := true) else popped;
      ReentrantKeeps(agreed, calls);
      ReentrantProgresses(agreed, calls);
      SendNextProgresses(Reentrant(agreed, calls));
    }
  }

  lemma {:induction false} ProgressParts(a: Att)
    requires Progress(a)
    ensures WithinAllowance(a) && FullPieces(a)
  {
  }

  /** An accepted fragment leaves fewer PDUs to send, and so does a refusal. */
  lemma {:induction false} AfterPrepareProgresses(r: Request, mtu: nat, error: Byte)
    requires RequestOk(r) && Preparing(r) && r.longValue != [] && FullPiece(r) && mtu >= DEFAULT_MTU
    ensures FullPiece(AfterPrepare(r, mtu, error))
    ensures Steps(AfterPrepare(r, mtu, error)) < Steps(r)
  {
    var end := FragmentEnd(r);
    PiecesMonotone(|r.longValue| - FragmentStart(r), 0);
    if error == 0 && end < |r.longValue| {
      PreparedOk(r, mtu, end);
      PreparedFull(r, mtu, end);
      PiecesShrink(|r.longValue| - FragmentStart(r), |r.longValue| - end);
    }
    hide Pieces, PrepareAt;
  }

  lemma {:induction false} PrepareStepProgresses(a: Att, fault: Byte)
    requires Numbered(a) && Bounded(a) && a.requests != [] && a.connected && !a.securityPending && a.busy
    requires a.outstanding == 0 && Progress(a)
    requires Preparing(a.requests[0]) && 0 < |a.requests[0].longValue| <= MAX_VALUE
    ensures Progress(SendNext(a.(busy := false,
      requests := [AfterPrepare(a.requests[0], a.mtu, fault)] + a.requests[1..])))
  {
    var front := a.requests[0];
    assert RequestOk(front) && FullPiece(front);
    AfterPrepareOk(front, a.mtu, fault);
    AfterPrepareProgresses(front, a.mtu, fault);
    hide AfterPrepare, Allowed, Steps, FullPiece, Count, RequestOk, Preparing;
    var g := AfterPrepare(front, a.mtu, fault);
    var next := a.(busy := false, requests := [g] + a.requests[1..]);
    ReplacedKeeps(a, g);
    ReplacedProgresses(a, g);
    SendNextProgresses(next);
  }

  lemma {:induction false} ReplacedProgresses(a: Att, g: Request)
    requires Progress(a) && a.requests != [] && a.busy && FullPiece(g) && Steps(g) < Steps(a.requests[0])
    requires g.longValue == a.requests[0].longValue
    ensures Progress(a.(busy := false, requests := [g] + a.requests[1..]))
  {
    hide FullPiece, Steps, Allowed, Count;
  }

  /** Waiting for encryption costs one more PDU, and happens once on a link. */
  lemma {:induction false} RetryProgresses(a: Att)
    requires Progress(a) && a.busy && !a.securityPending && !a.security.Encrypted? && a.requests != []
    ensures Progress(a.(busy := false, securityPending := true, security := Working))
  {
    hide FullPiece, Steps, Allowed, Count;
  }

  lemma {:induction false} ResponseProgresses(a: Att, pdu: Bytes, calls: seq<Call>)
    requires Numbered(a) && Bounded(a) && a.requests != [] && a.connected && !a.securityPending && a.busy
    requires a.outstanding == 0 && RequestOk(a.requests[0]) && Progress(a)
    requires pdu != [] && forall c :: c in calls ==> CallOk(c)
    ensures match ReceiveResponse(a, pdu, calls)
      case Returns(b) => Progress(b)
      case Throws(b) => WithinAllowance(b)
  {
    hide Numbered, Bounded, Finish, SendNext, AfterPrepare, Progress, WithinAllowance, FullPieces;
    var front := a.requests[0];
    var error := if pdu[0] == OP_ERROR && |pdu| == 5 then pdu[4] else 0;
    ProgressParts(a);
    if !a.security.Encrypted? { RetryProgresses(a); }
    if Preparing(front) && front.longValue != [] {
      PrepareStepProgresses(a, if error == 0 && pdu[1..] != front.packet[1..] then BAD_ECHO else error);
    }
    FinishProgresses(a, error, if error != 0 then [] else pdu[1..], calls);
    FinishProgresses(a, front.prepareError, [], calls);
  }

  lemma {:induction false} AnsweredProgresses(a: Att)
    requires Progress(a)
    ensures Progress(a.(outstanding := a.outstanding - 1))
  {
    hide FullPiece, Steps, Allowed, Count;
  }

  lemma {:induction false} HandleProgresses(a: Att, pdu: Bytes, calls: seq<Call>)
    requires QueueInv(a) && Progress(a) && forall c :: c in calls ==> CallOk(c)
    ensures Progress(Handle(a, pdu, calls))
  {
    hide ReceiveResponse, Numbered, Progress, WithinAllowance, Clear;
    var answered := a.(outstanding := a.outstanding - 1);
    ProgressParts(a);
    ClearProgresses(a);
    if pdu != [] && |pdu| == 3 { AgreeProgresses(a, Min(a.localMtu, ReadLe16(pdu[1..]))); }
    if a.busy && pdu != [] {
      assert RequestOk(a.requests[0]);
      NumberedIgnoresPace(a);
      AnsweredProgresses(a);
      ResponseProgresses(answered, pdu, calls);
      match ReceiveResponse(answered, pdu, calls) {
        case Returns(_) =>
        case Throws(b) => ClearProgresses(b);
      }
    }
  }

  // ----- Every run -----

  lemma {:induction false} SecuredProgresses(a: Att)
    requires QueueInv(a) && Progress(a) && a.security.Working?
    ensures Progress(a.(security := Encrypted, securityPending := false))
    ensures QueueInv(a.(security := Encrypted, securityPending := false))
  {
    hide FullPiece, Steps, Allowed, Count, RequestOk;
  }

  lemma {:induction false} OpenProgresses(a: Att, bonded: bool)
    requires QueueInv(a) && Progress(a)
    ensures Progress(Open(a, bonded))
  {
    hide FullPiece, Steps, Allowed, Count, RequestOk;
  }

  lemma {:induction false} WriteProgresses(a: Att, handle: nat, value: Bytes)
    requires QueueInv(a) && Progress(a) && handle < 0x10000
    ensures Progress(Write(a, handle, value).0)
  {
    hide QueueInv, Progress, Enqueue;
    MtuAtLeast(a);
    if |value| > MAX_VALUE {
    } else if |value| > a.mtu - 3 {
      EnqueueProgresses(a, Plain, [OP_WRITE] + Le16(handle), value);
    } else {
      EnqueueProgresses(a, Plain, [OP_WRITE] + Le16(handle) + value, []);
    }
  }

  lemma {:induction false} ApplyProgresses(a: Att, e: Event)
    requires QueueInv(a) && EventOk(e) && Progress(a)
    ensures Progress(Apply(a, e))
  {
    hide QueueInv, Progress, Perform, Write, Open, Handle, SendNext;
    match e {
      case Does(call) => PerformProgresses(a, call);
      case Writes(handle, value) => WriteProgresses(a, handle, value);
      case Opens(bonded) => OpenProgresses(a, bonded);
      case Receives(pdu, calls) => HandleProgresses(a, pdu, calls);
      case Secures =>
        if a.security.Working? {
          SecuredProgresses(a);
          SendNextProgresses(a.(security := Encrypted, securityPending := false));
        }
    }
  }

  lemma {:induction false} RunProgresses(events: seq<Event>)
    requires forall e :: e in events ==> EventOk(e)
    ensures Progress(Exec(events))
  {
    hide QueueInv, Apply, EventOk;
    if events != [] {
      hide Progress;
      RunProgresses(events[..|events| - 1]);
      ApplyProgresses(Exec(events[..|events| - 1]), events[|events| - 1]);
    }
  }

  /**
    In every run, whatever the server answers: a request takes at most two PDUs, a long write at most one for each 18
    bytes begun, one to execute or cancel, and one more if encryption had to come first. None goes on for ever.
   */
  lemma {:induction false} RequestsTakeBoundedPdus(events: seq<Event>, id: nat)
    requires (forall e :: e in events ==> EventOk(e)) && id < |Exec(events).accepted|
    ensures var a := Exec(events);
      Count(a.sent, id) <= if a.accepted[id].longValue == [] then 2 else (|a.accepted[id].longValue| + 17) / 18 + 2
  {
    hide Exec, EventOk;
    RunProgresses(events);
  }

  // ----- Nothing stalls -----

  /** What waits on an open link is on its way, or is held back by an encryption that is being set up. */
  predicate Moving(a: Att) {
    && (a.securityPending ==> a.security.Working?)
    && (a.connected && a.requests != [] ==> a.busy || a.securityPending)
  }

  lemma {:induction false} SendNextMoves(a: Att)
    requires a.securityPending ==> a.security.Working?
    ensures Moving(SendNext(a))
  {
  }

  lemma {:induction false} EnqueueMoves(a: Att, kind: Kind, packet: Bytes, longValue: Bytes)
    requires a.mtu >= DEFAULT_MTU && (longValue != [] ==> |packet| >= 3) && Moving(a)
    ensures Moving(Enqueue(a, kind, packet, longValue).0)
  {
    hide PrepareAt;
  }

  lemma {:induction false} PerformMoves(a: Att, call: Call)
    requires a.mtu >= DEFAULT_MTU && CallOk(call) && Moving(a)
    ensures Moving(Perform(a, call))
  {
    hide Enqueue, LostCompletions;
    match call {
      case Issue(packet, longValue) => EnqueueMoves(a, Plain, packet, longValue);
      case Exchange(maximum) =>
        if !a.mtuExchanged {
          EnqueueMoves(a.(localMtu := maximum), Mtu(maximum), [OP_MTU_REQUEST] + Le16(maximum), []);
        }
      case Teardown =>
    }
  }

  lemma {:induction false} ReentrantSecures(a: Att, calls: seq<Call>)
    requires a.mtu >= DEFAULT_MTU && (forall c :: c in calls ==> CallOk(c))
    requires a.securityPending ==> a.security.Working?
    ensures var b := Reentrant(a, calls); b.securityPending ==> b.security.Working?
    decreases |calls|
  {
    if calls != [] {
      PerformSecures(a, calls[0]);
      hide Perform;
      ReentrantSecures(Perform(a, calls[0]), calls[1..]);
    }
  }

  /** Callbacks start no encryption of their own. */
  lemma {:induction false} PerformSecures(a: Att, call: Call)
    requires a.mtu >= DEFAULT_MTU && CallOk(call) && (a.securityPending ==> a.security.Working?)
    ensures var b := Perform(a, call); b.securityPending ==> b.security.Working?
  {
    hide PrepareAt, LostCompletions;
  }

  lemma {:induction false} ResponseMoves(a: Att, pdu: Bytes, calls: seq<Call>)
    requires a.mtu >= DEFAULT_MTU && (forall c :: c in calls ==> CallOk(c)) && a.requests != []
    requires RequestOk(a.requests[0]) && pdu != [] && (a.securityPending ==> a.security.Working?)
    ensures ReceiveResponse(a, pdu, calls).Returns? ==> Moving(ReceiveResponse(a, pdu, calls).a)
  {
    var front := a.requests[0];
    assert front.packet != [] && |front.longValue| <= MAX_VALUE;
    assert front.packet[0] == OP_PREPARE ==> Preparing(front);
    hide AfterPrepare, Finish, RequestOk, Preparing, SendNext, Moving;
    MovingMeans(a);
    var error := if pdu[0] == OP_ERROR && |pdu| == 5 then pdu[4] else 0;
    FinishMoves(a, error, if error != 0 then [] else pdu[1..], calls);
    FinishMoves(a, front.prepareError, [], calls);
    if Preparing(front) {
      var fault := if error == 0 && pdu[1..] != front.packet[1..] then BAD_ECHO else error;
      SendNextMoves(a.(busy := false, requests := [AfterPrepare(front, a.mtu, fault)] + a.requests[1..]));
    }
  }

  lemma {:induction false} FinishMoves(a: Att, error: Byte, value: Bytes, calls: seq<Call>)
    requires a.requests != [] && RequestOk(a.requests[0]) && a.mtu >= DEFAULT_MTU
    requires (forall c :: c in calls ==> CallOk(c)) && (a.securityPending ==> a.security.Working?)
    ensures Finish(a, error, value, calls).Returns? ==> Moving(Finish(a, error, value, calls).a)
  {
    hide Reentrant, SendNext, Moving, Preparing, Executing;
    var front := a.requests[0];
    var exchange := front.kind.Mtu? && error == 0;
    if !exchange || MtuResponseOk(value) {
      var popped := Popped(a, error, value, true);
      var agreed :=
        if exchange
        then popped.(mtu := Min(if a.mtuExchanged then a.mtu else front.kind.maximum, ReadLe16(value)),
          mtuExchanged := true)
        else popped;
      ReentrantSecures(agreed, calls);
      SendNextMoves(Reentrant(agreed, calls));
    }
  }

  lemma {:induction false} MovingMeans(a: Att)
    ensures Moving(a.(busy := false, securityPending := true, security := Working))
  {
  }

  lemma {:induction false} HandleMoves(a: Att, pdu: Bytes, calls: seq<Call>)
    requires QueueInv(a) && Moving(a) && forall c :: c in calls ==> CallOk(c)
    ensures Moving(Handle(a, pdu, calls))
  {
    hide ReceiveResponse, LostCompletions, Numbered;
    if a.busy && pdu != [] {
      assert RequestOk(a.requests[0]);
      ResponseMoves(a.(outstanding := a.outstanding - 1), pdu, calls);
    }
  }

  lemma {:induction false} ApplyMoves(a: Att, e: Event)
    requires QueueInv(a) && EventOk(e) && Moving(a)
    ensures Moving(Apply(a, e))
  {
    MtuAtLeast(a);
    hide Perform, Enqueue, Handle, Moving;
    match e {
      case Does(call) => PerformMoves(a, call);
      case Writes(handle, value) =>
        hide QueueInv;
        if |value| > a.mtu - 3 {
          EnqueueMoves(a, Plain, [OP_WRITE] + Le16(handle), value);
        } else {
          EnqueueMoves(a, Plain, [OP_WRITE] + Le16(handle) + value, []);
        }
      case Opens(bonded) => OpenMoves(a, bonded);
      case Receives(pdu, calls) => HandleMoves(a, pdu, calls);
      case Secures => if a.security.Working? { SendNextMoves(a.(security := Encrypted, securityPending := false)); }
    }
  }

  lemma {:induction false} OpenMoves(a: Att, bonded: bool)
    requires QueueInv(a) && Moving(a)
    ensures Moving(Open(a, bonded))
  {
    hide Numbered, Bounded;
  }

  lemma {:induction false} RunMoves(events: seq<Event>)
    requires forall e :: e in events ==> EventOk(e)
    ensures Moving(Exec(events))
  {
    hide QueueInv, Apply, EventOk;
    if events != [] {
      hide Moving;
      RunMoves(events[..|events| - 1]);
      ApplyMoves(Exec(events[..|events| - 1]), events[|events| - 1]);
    }
  }

  /**
    In every run no request is forgotten: on an open link with requests queued the first one is on its way, or an
    encryption is being set up whose end sends it.
   */
  lemma {:induction false} NothingStalls(events: seq<Event>)
    requires forall e :: e in events ==> EventOk(e)
    requires Exec(events).connected && Exec(events).requests != []
    ensures var a := Exec(events);
      a.busy || (a.securityPending && a.security.Working? && SecurityReady(a).busy)
  {
    hide Exec, EventOk;
    RunMoves(events);
  }

  // ----- The MTU -----

  /** A prepared fragment fills the PDU the MTU allows, unless it is the last, and never exceeds it. */
  lemma {:induction false} FragmentsFitTheMtu(r: Request, mtu: nat, offset: nat)
    requires |r.packet| >= 3 && offset < |r.longValue| <= MAX_VALUE && mtu >= DEFAULT_MTU && r.kind == Plain
    requires r.prepareError == 0
    ensures var q := PrepareAt(r, mtu, offset);
      && |q.packet| >= 5
      && |q.packet| <= mtu
      && (|q.packet| == mtu || FragmentEnd(q) == |r.longValue|)
  {
    PreparedOk(r, mtu, offset);
    hide RequestOk, Preparing, FragmentStart, FragmentEnd;
  }

  /**
    Whoever asks for an exchange, both sides end up with the smaller of the two receive limits: on a usable answer to
    the client's offer, and on the server's own offer.
   */
  lemma {:induction false} ExchangesAgreeOnTheSmaller(a: Att, limit: nat)
    requires QueueInv(a) && DEFAULT_MTU <= limit < 0x1_0000 && !a.mtuExchanged
    ensures var b := Handle(a, [OP_MTU_REQUEST] + Le16(limit), []);
      b.mtu <= limit && b.mtu <= a.localMtu && (b.mtu == limit || b.mtu == a.localMtu) && b.mtuExchanged
    ensures a.busy && a.requests[0].kind.Mtu? ==>
      var b, offer := Handle(a, [OP_MTU_REQUEST + 1] + Le16(limit), []), a.requests[0].kind.maximum;
      b.mtu <= limit && b.mtu <= offer && (b.mtu == limit || b.mtu == offer) && b.mtuExchanged && b.connected
  {
    var request: Bytes, response: Bytes := [OP_MTU_REQUEST] + Le16(limit), [OP_MTU_REQUEST + 1] + Le16(limit);
    assert request[1..] == Le16(limit) && response[1..] == Le16(limit);
    ReadWritten(limit, []);
    hide Numbered, LostCompletions;
    if a.busy && a.requests[0].kind.Mtu? {
      assert RequestOk(a.requests[0]);
      AnswerAgrees(a.(outstanding := a.outstanding - 1), response, limit);
    }
  }

  lemma {:induction false} AnswerAgrees(a: Att, response: Bytes, limit: nat)
    requires a.requests != [] && RequestOk(a.requests[0]) && a.mtu >= DEFAULT_MTU && !a.mtuExchanged && a.connected
    requires a.requests[0].kind.Mtu? && DEFAULT_MTU <= limit < 0x1_0000
    requires response == [OP_MTU_REQUEST + 1] + Le16(limit) && response[1..] == Le16(limit)
    requires ReadLe16(Le16(limit)) == limit
    ensures ReceiveResponse(a, response, []).Returns?
    ensures var b, offer := ReceiveResponse(a, response, []).a, a.requests[0].kind.maximum;
      b.mtu == (if limit < offer then limit else offer) && b.mtuExchanged && b.connected
  {
  }
}
