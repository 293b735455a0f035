/** The peer's ATT client: a queue of requests, one PDU outstanding, long writes, security retries. */
module AttQueue {
  import opened Bits

  const DEFAULT_MTU: nat := 23
  const MAX_MTU: nat := 498
  const MAX_VALUE: nat := 512
  const MAX_PENDING: nat := 64

  const OP_ERROR: Byte := 0x01
  const OP_MTU_REQUEST: Byte := 0x02
  const OP_WRITE: Byte := 0x12
  const OP_PREPARE: Byte := 0x16
  const OP_EXECUTE: Byte := 0x18
  const OP_NOTIFY: Byte := 0x1B
  const OP_INDICATE: Byte := 0x1D

  const LINK_CLOSED: Byte := 0x0E
  const BAD_ECHO: Byte := 0x04

  /** An MTU exchange looks at its response before its caller is told. */
  datatype Kind = Plain | Mtu(maximum: nat)

  datatype Request = Request(id: nat, kind: Kind, packet: Bytes, longValue: Bytes, prepareError: Byte)

  datatype Security = Idle | Working | Encrypted

  datatype Ending = Answered | LinkLost

  /** A request's completion callback has run with this result; `told` if it passed it on to its caller. */
  datatype Completion = Completion(id: nat, error: Byte, value: Bytes, ending: Ending, told: bool)

  /** A request as it was accepted. */
  datatype Asked = Asked(packet: Bytes, longValue: Bytes)

  /** Requests are numbered in the order of acceptance. `accepted`, `sent` and `completed` are history. */
  datatype Att = Att(connected: bool, requests: seq<Request>, busy: bool, securityPending: bool, security: Security,
                     mtu: nat, localMtu: nat, mtuExchanged: bool,
                     accepted: seq<Asked>, outstanding: int, sent: seq<nat>, completed: seq<Completion>)

  /** What a completion callback may do before it returns. */
  datatype Call = Issue(packet: Bytes, longValue: Bytes) | Exchange(maximum: nat) | Teardown

  /** A handler either returns or throws, which makes the polling loop close the link. */
  datatype Outcome = Returns(a: Att) | Throws(a: Att)

  // ----- Sending -----

  function PrepareAt(r: Request, mtu: nat, offset: nat): Request
    requires |r.packet| >= 3 && offset <= |r.longValue| && offset < 0x10000 && mtu >= DEFAULT_MTU
  {
    r.(packet := [OP_PREPARE] + r.packet[1..3] + Le16(offset) + Fragment(r.longValue, mtu, offset))
  }

  function Fragment(value: Bytes, mtu: nat, offset: nat): (f: Bytes)
    requires offset <= |value| && mtu >= DEFAULT_MTU
    ensures offset < |value| ==> f != []
  {
    if |value| - offset < mtu - 5 then value[offset..] else value[offset..offset + mtu - 5]
  }

  function SendNext(a: Att): Att {
    if a.busy || a.securityPending || a.requests == [] || !a.connected then a
    else a.(busy := true, outstanding := a.outstanding + 1, sent := a.sent + [a.requests[0].id])
  }

  /** A new request, unless there is no link or no room, when it is turned away at once. */
  function Enqueue(a: Att, kind: Kind, packet: Bytes, longValue: Bytes): (r: (Att, bool))
    requires a.mtu >= DEFAULT_MTU && (longValue != [] ==> |packet| >= 3)
    ensures r.0.mtu == a.mtu && r.0.localMtu == a.localMtu
  {
    if !a.connected || |a.requests| >= MAX_PENDING then (a, false)
    else
      var r := Request(|a.accepted|, kind, packet, longValue, 0);
      var pending := if longValue != [] then PrepareAt(r, a.mtu, 0) else r;
      (SendNext(a.(requests := a.requests + [pending], accepted := a.accepted + [Asked(packet, longValue)])), true)
  }

  /** An exchange offers its maximum as the receive limit whether or not the request gets through. */
  function ExchangeMtu(a: Att, maximum: nat): (Att, bool)
    requires a.mtu >= DEFAULT_MTU && DEFAULT_MTU <= maximum <= MAX_MTU
  {
    if a.mtuExchanged then (a, true)
    else Enqueue(a.(localMtu := maximum), Mtu(maximum), [OP_MTU_REQUEST] + Le16(maximum), [])
  }

  /** A write that does not fit one PDU keeps its value whole, as a long write. */
  function Write(a: Att, handle: nat, value: Bytes): (Att, bool)
    requires a.mtu >= DEFAULT_MTU && handle < 0x10000
  {
    if |value| > MAX_VALUE then (a, false)
    else if |value| > a.mtu - 3 then Enqueue(a, Plain, [OP_WRITE] + Le16(handle), value)
    else Enqueue(a, Plain, [OP_WRITE] + Le16(handle) + value, [])
  }

  // ----- Closing -----

  function LostCompletions(requests: seq<Request>): seq<Completion> {
    seq(|requests|, i requires 0 <= i < |requests| => Completion(requests[i].id, LINK_CLOSED, [], LinkLost, true))
  }

  /** Requests issued from these callbacks are turned away, the link being gone. */
  function Clear(a: Att): Att {
    a.(connected := false, requests := [], busy := false, securityPending := false, security := Idle,
       mtu := DEFAULT_MTU, localMtu := DEFAULT_MTU, mtuExchanged := false, outstanding := 0,
       completed := a.completed + LostCompletions(a.requests))
  }

  function Open(a: Att, bonded: bool): Att {
    if a.connected then a
    else a.(connected := true, securityPending := bonded, security := if bonded then Working else a.security)
  }

  // ----- Receiving -----

  /** Callers issue requests, which have even opcodes; prepared writes are the queue's own. */
  predicate CallOk(call: Call) {
    match call
    case Issue(packet, longValue) =>
      && packet != []
      && packet[0] % 2 == 0
      && packet[0] != OP_PREPARE
      && packet[0] != OP_EXECUTE
      && (longValue != [] ==> |packet| == 3 && packet[0] == OP_WRITE && |longValue| <= MAX_VALUE)
    case Exchange(maximum) => DEFAULT_MTU <= maximum <= MAX_MTU
    case Teardown => true
  }

  function Perform(a: Att, call: Call): (b: Att)
    requires a.mtu >= DEFAULT_MTU && CallOk(call)
    ensures b.mtu >= DEFAULT_MTU
  {
    match call
    case Issue(packet, longValue) => Enqueue(a, Plain, packet, longValue).0
    case Exchange(maximum) => ExchangeMtu(a, maximum).0
    case Teardown => Clear(a)
  }

  function Reentrant(a: Att, calls: seq<Call>): (b: Att)
    requires a.mtu >= DEFAULT_MTU && forall c :: c in calls ==> CallOk(c)
    ensures b.mtu >= DEFAULT_MTU
    decreases |calls|
  {
    if calls == [] then a else Reentrant(Perform(a, calls[0]), calls[1..])
  }

  predicate MtuResponseOk(value: Bytes) {
    |value| == 2 && ReadLe16(value) >= DEFAULT_MTU
  }

  function Min(x: nat, y: nat): nat {
    if x < y then x else y
  }

  /** The front request is finished: drop it, run its callback, go on. */
  function Finish(a: Att, error: Byte, value: Bytes, calls: seq<Call>): (r: Outcome)
    requires a.requests != [] && RequestOk(a.requests[0]) && a.mtu >= DEFAULT_MTU
    requires forall c :: c in calls ==> CallOk(c)
  {
    var front := a.requests[0];
    var exchange := front.kind.Mtu? && error == 0;
    var told := !exchange || MtuResponseOk(value);
    var popped := a.(requests := a.requests[1..], busy := false,
                     completed := a.completed + [Completion(front.id, error, value, Answered, told)]);
    if !told then Throws(popped)
    else
      var agreed :=
        if exchange
        then popped.(mtu := Min(if a.mtuExchanged then a.mtu else front.kind.maximum, ReadLe16(value)),
          mtuExchanged := true)
        else popped;
      Returns(SendNext(Reentrant(agreed, calls)))
  }

  /** The answer to a prepared fragment: on to the next one, the commit, or the cancellation. */
  function AfterPrepare(r: Request, mtu: nat, error: Byte): (q: Request)
    requires Preparing(r) && |r.longValue| <= MAX_VALUE && mtu >= DEFAULT_MTU
  {
    if error != 0 then r.(prepareError := error, packet := [OP_EXECUTE, 0])
    else
      if FragmentEnd(r) < |r.longValue| then PrepareAt(r, mtu, FragmentEnd(r)) else r.(packet := [OP_EXECUTE, 1])
  }

  /** Where a prepared fragment starts and ends within its value. */
  function FragmentStart(r: Request): nat
    requires |r.packet| >= 5
  {
    ReadLe16(r.packet[3..5])
  }

  function FragmentEnd(r: Request): nat
    requires |r.packet| >= 5
  {
    FragmentStart(r) + |r.packet| - 5
  }

  predicate Preparing(r: Request) {
    && |r.packet| > 5
    && r.packet[0] == OP_PREPARE
    && r.prepareError == 0
    && FragmentEnd(r) <= |r.longValue|
    && r.packet[5..] == r.longValue[FragmentStart(r)..FragmentEnd(r)]
  }

  predicate Executing(r: Request) {
    |r.packet| == 2 && r.packet[0] == OP_EXECUTE && r.packet[1] == if r.prepareError == 0 then 1 else 0
  }

  /** A long write is in one of its two phases; any other request is as it was issued. */
  predicate RequestOk(r: Request) {
    && r.packet != [] && |r.longValue| <= MAX_VALUE
    && (r.kind.Mtu? ==> DEFAULT_MTU <= r.kind.maximum <= MAX_MTU && r.packet[0] == OP_MTU_REQUEST)
    && if r.longValue != [] then r.kind == Plain && (Preparing(r) || Executing(r))
       else r.packet[0] % 2 == 0 && r.packet[0] != OP_PREPARE && r.packet[0] != OP_EXECUTE && r.prepareError == 0
  }

  function Receive(a: Att, pdu: Bytes, calls: seq<Call>): Outcome
    requires a.mtu >= DEFAULT_MTU && (forall c :: c in calls ==> CallOk(c))
    requires (forall r :: r in a.requests ==> RequestOk(r))
  {
    if pdu == [] || |pdu| > a.mtu then Throws(a)
    else
      var opcode := pdu[0];
      if opcode == OP_NOTIFY || opcode == OP_INDICATE then (if |pdu| < 3 then Throws(a) else Returns(a))
      else if opcode == OP_MTU_REQUEST then
        if |pdu| != 3 || ReadLe16(pdu[1..]) < DEFAULT_MTU then Throws(a)
        else Returns(a.(mtu := Min(a.localMtu, ReadLe16(pdu[1..])), mtuExchanged := true))
      else if opcode % 2 == 0 then Returns(a)
      else if !a.busy || a.requests == [] then Throws(a)
      else ReceiveResponse(a.(outstanding := a.outstanding - 1), pdu, calls)
  }

  /** A response to the request at the front. */
  function ReceiveResponse(a: Att, pdu: Bytes, calls: seq<Call>): Outcome
    requires a.mtu >= DEFAULT_MTU && (forall c :: c in calls ==> CallOk(c)) && a.requests != []
    requires RequestOk(a.requests[0]) && pdu != []
  {
    var front := a.requests[0];
    var asked := front.packet[0];
    if pdu[0] == OP_ERROR && (|pdu| != 5 || pdu[1] != asked || pdu[4] == 0) then Throws(a)
    else if pdu[0] != OP_ERROR && pdu[0] as int != asked + 1 then Throws(a)
    else
      var error := if pdu[0] == OP_ERROR then pdu[4] else 0;
      if (error == 0x05 || error == 0x0F) && !a.security.Encrypted? && asked != OP_EXECUTE then
        Returns(a.(busy := false, securityPending := true, security := Working))
      else if asked == OP_PREPARE then
        var fault := if error == 0 && pdu[1..] != front.packet[1..] then BAD_ECHO else error;
        Returns(SendNext(a.(busy := false, requests := [AfterPrepare(front, a.mtu, fault)] + a.requests[1..])))
      else if asked == OP_EXECUTE && error == 0 && |pdu| != 1 then Throws(a)
      else if asked == OP_EXECUTE && front.prepareError != 0 then
        if error != 0 then Throws(a) else Finish(a, front.prepareError, [], calls)
      else Finish(a, error, if error != 0 then [] else pdu[1..], calls)
  }

  /** Encryption is up: requests held back for it go out. */
  function SecurityReady(a: Att): Att {
    if !a.security.Working? then a else SendNext(a.(security := Encrypted, securityPending := false))
  }
}
