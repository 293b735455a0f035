/**
  A long write against an ATT server with a prepare queue. The server may grant, refuse or garble
  any answer, ask for another MTU at any time, and the link may drop at any moment.
 */
module LongWrite {
  import opened Bits
  import opened AttQueue
  import opened AttSafety

  datatype Part = Part(handle: Bytes, offset: nat, bytes: Bytes)

  /** Executed prepare queues, each with the number of the request that asked for it. */
  datatype Commit = Commit(id: nat, parts: seq<Part>)

  datatype Server = Server(queue: seq<Part>, commits: seq<Commit>)

  /**
    A garbled answer to a fragment echoes something else, and leaves whatever it likes in the queue. To any request
    that is not part of a long write, `Garble` is an answer that carries these bytes.
   */
  datatype Choice = Grant | Refuse(error: Byte) | Garble(echo: Bytes, queue: seq<Part>)

  /** The peer and the server, with the reply on its way. */
  datatype System = System(a: Att, server: Server, reply: Option<Bytes>)

  datatype Happening = Local(e: Event) | Answers(choice: Choice) | Arrives(calls: seq<Call>)

  function ErrorReply(opcode: Byte, error: Byte): Bytes {
    [OP_ERROR, opcode, 0, 0, error]
  }

  /** What the server does with a request PDU. */
  function Answer(server: Server, id: nat, pdu: Bytes, choice: Choice): (Server, Bytes)
    requires pdu != [] && pdu[0] < 255 && (pdu[0] == OP_PREPARE ==> |pdu| > 5) && (pdu[0] == OP_EXECUTE ==> |pdu| == 2)
  {
    var refusal := ErrorReply(pdu[0], if choice.Refuse? && choice.error != 0 then choice.error else 1);
    if pdu[0] == OP_PREPARE then
      match choice
      case Grant =>
        (server.(queue := server.queue + [Part(pdu[1..3], ReadLe16(pdu[3..5]), pdu[5..])]), [0x17] + pdu[1..])
      case Refuse(_) => (server, refusal)
      case Garble(echo, queue) =>
        if echo == pdu[1..] then (server, refusal) else (server.(queue := queue), [0x17] + echo)
    else if pdu[0] == OP_EXECUTE then
      if !choice.Grant? then (server.(queue := []), refusal)
      else (Server([], if pdu[1] == 1 then server.commits + [Commit(id, server.queue)] else server.commits), [0x19])
    else
      match choice
      case Grant => (server, [pdu[0] + 1])
      case Refuse(_) => (server, refusal)
      case Garble(echo, _) => (server, [pdu[0] + 1] + echo)
  }

  /** A link that is gone takes the reply and the server's prepare queue with it. */
  function Settle(s: System): System {
    if s.a.connected then s else s.(reply := None, server := s.server.(queue := []))
  }

  /** PDUs that reach the client other than as the answer to its request. */
  predicate LocalOk(e: Event) {
    && EventOk(e)
    && (e.Receives? && e.pdu != [] ==> e.pdu[0] % 2 == 0 || e.pdu[0] == OP_NOTIFY || e.pdu[0] == OP_INDICATE)
  }

  predicate HappeningOk(h: Happening) {
    match h
    case Local(e) => LocalOk(e)
    case Answers(_) => true
    case Arrives(calls) => forall c :: c in calls ==> CallOk(c)
  }

  function Happen(s: System, h: Happening): System
    requires QueueInv(s.a) && HappeningOk(h)
  {
    match h
    case Local(e) => Settle(s.(a := Apply(s.a, e)))
    case Answers(choice) =>
      if !s.a.busy || s.reply.Some? then s
      else
        var front := s.a.requests[0];
        assert RequestOk(front);
        var (server, reply) := Answer(s.server, front.id, front.packet, choice);
        s.(server := server, reply := Some(reply))
    case Arrives(calls) =>
      if s.reply.None? then s
      else Settle(s.(a := Handle(s.a, s.reply.value, calls), reply := None))
  }

  // ----- What holds -----

  /** The parts cover `value[..end]` exactly: from 0 on, in order, without gap or overlap. */
  predicate Tiles(q: seq<Part>, handle: Bytes, value: Bytes, end: nat) {
    end <= |value| &&
    if q == [] then end == 0
    else
      var p := q[|q| - 1];
      && p.handle == handle
      && p.bytes != []
      && p.offset + |p.bytes| == end
      && p.bytes == value[p.offset..end]
      && Tiles(q[..|q| - 1], handle, value, p.offset)
  }

  function Concat(q: seq<Part>): Bytes {
    if q == [] then [] else Concat(q[..|q| - 1]) + q[|q| - 1].bytes
  }

  lemma {:induction false} TilesSpell(q: seq<Part>, handle: Bytes, value: Bytes, end: nat)
    requires Tiles(q, handle, value, end)
    ensures Concat(q) == value[..end]
  {
    hide Tiles, Concat;
    LastTile(q, handle, value, end);
    if q != [] {
      var p := q[|q| - 1];
      TilesSpell(q[..|q| - 1], handle, value, p.offset);
      assert value[..end] == value[..p.offset] + value[p.offset..end];
    }
  }

  lemma {:induction false} LastTile(q: seq<Part>, handle: Bytes, value: Bytes, end: nat)
    requires Tiles(q, handle, value, end)
    ensures end <= |value|
    ensures q == [] ==> end == 0 && Concat(q) == []
    ensures q != [] ==>
      var p := q[|q| - 1];
      && p.offset + |p.bytes| == end
      && p.bytes == value[p.offset..end]
      && Tiles(q[..|q| - 1], handle, value, p.offset)
      && Concat(q) == Concat(q[..|q| - 1]) + p.bytes
  {
  }

  lemma {:induction false} TilesReach(q: seq<Part>, handle: Bytes, value: Bytes, end: nat)
    requires Tiles(q, handle, value, end)
    ensures forall p :: p in q ==> p.handle == handle
  {
    if q != [] {
      TilesReach(q[..|q| - 1], handle, value, q[|q| - 1].offset);
      assert q == q[..|q| - 1] + [q[|q| - 1]];
    }
  }

  predicate Committed(commits: seq<Commit>, id: nat) {
    exists c :: c in commits && c.id == id
  }

  /** The attribute handle an accepted request addressed. */
  function HandleOf(a: Att, id: nat): Bytes
    requires id < |a.accepted|
  {
    if |a.accepted[id].packet| >= 3 then a.accepted[id].packet[1..3] else []
  }

  /** Every executed queue was some accepted value, whole and in order, and none was executed twice. */
  predicate CommitsOk(a: Att, commits: seq<Commit>) {
    && (forall c :: c in commits ==>
         c.id < |a.accepted|
         && Tiles(c.parts, HandleOf(a, c.id), a.accepted[c.id].longValue, |a.accepted[c.id].longValue|))
    && (forall i, j :: 0 <= i < j < |commits| ==> commits[i].id != commits[j].id)
  }

  /** An answered long write succeeded exactly when it was committed. */
  predicate Verdicts(a: Att, commits: seq<Commit>)
    requires |a.completed| <= |a.accepted|
  {
    forall i :: 0 <= i < |a.completed| && a.accepted[i].longValue != [] ==>
      && (a.completed[i].ending == Answered ==> (a.completed[i].error == 0 <==> Committed(commits, i)))
      && (a.completed[i].ending == LinkLost ==> a.completed[i].error != 0)
  }

  predicate Waiting(a: Att, i: nat)
    requires i < |a.requests| && QueueInv(a)
  {
    var r := a.requests[i];
    if r.longValue == [] then r.packet == a.accepted[|a.completed| + i].packet
    else Preparing(r) && r.packet[1..3] == HandleOf(a, |a.completed| + i) && FragmentStart(r) == 0
  }

  predicate Common(a: Att, commits: seq<Commit>) {
    && QueueInv(a) && CommitsOk(a, commits) && Verdicts(a, commits)
    && (forall i :: 1 <= i < |a.requests| ==> Waiting(a, i))
    && (a.requests != [] && a.requests[0].longValue != [] && Preparing(a.requests[0]) ==>
          a.requests[0].packet[1..3] == HandleOf(a, |a.completed|))
    && (a.requests != [] && a.requests[0].longValue == [] ==> a.requests[0].packet == a.accepted[|a.completed|].packet)
  }

  /** No reply on the way: the server's queue is what the front request has prepared so far. */
  predicate Quiet(a: Att, server: Server) {
    && Common(a, server.commits)
    && (forall c :: c in server.commits ==> c.id < |a.completed|)
    && (a.connected ==>
        if a.requests == [] || a.requests[0].longValue == [] then server.queue == []
        else
          var f := a.requests[0];
          && (Preparing(f) ==> Tiles(server.queue, HandleOf(a, |a.completed|), f.longValue, FragmentStart(f)))
          && (Executing(f) && f.prepareError == 0 ==>
               Tiles(server.queue, HandleOf(a, |a.completed|), f.longValue, |f.longValue|)))
  }

  predicate Refusal(reply: Bytes, opcode: Byte) {
    && |reply| == 5
    && reply[0] == OP_ERROR
    && reply[1] == opcode
    && reply[4] != 0
  }

  /** A reply on the way: it says truly what the server did. */
  predicate Answering(a: Att, server: Server, reply: Bytes) {
    && Common(a, server.commits)
    && a.busy
    && a.connected
    && reply != []
    && (forall c :: c in server.commits ==> c.id <= |a.completed|)
    && var f := a.requests[0];
       if f.longValue == [] then server.queue == [] && (forall c :: c in server.commits ==> c.id < |a.completed|)
       else if Preparing(f) then
         && (forall c :: c in server.commits ==> c.id < |a.completed|)
         && (|| (reply == [0x17] + f.packet[1..]
              && Tiles(server.queue, HandleOf(a, |a.completed|), f.longValue, FragmentEnd(f)))
             || (Refusal(reply, OP_PREPARE)
                 && Tiles(server.queue, HandleOf(a, |a.completed|), f.longValue, FragmentStart(f)))
             || (reply[0] == 0x17 && reply[1..] != f.packet[1..]))
       else
         && server.queue == []
         && (reply == [0x19] || Refusal(reply, OP_EXECUTE))
         && (Committed(server.commits, |a.completed|) <==> reply == [0x19] && f.prepareError == 0)
  }

  predicate Sound(s: System) {
    && (s.reply.None? ==> Quiet(s.a, s.server))
    && (s.reply.Some? ==> Answering(s.a, s.server, s.reply.value))
    && (!s.a.connected ==> s.server.queue == [])
  }

  // ----- Steps that only add requests, and steps that close the link -----

  /** `b` is `a` with more requests waiting behind. */
  predicate Grew(a: Att, b: Att) {
    && QueueInv(a)
    && QueueInv(b)
    && a.completed == b.completed
    && a.accepted <= b.accepted
    && a.requests <= b.requests
    && a.connected == b.connected && (a.busy ==> b.busy)
    && forall i :: |a.requests| <= i < |b.requests| ==> Waiting(b, i)
  }

  lemma {:induction false} GrewCommon(a: Att, b: Att, commits: seq<Commit>)
    requires Grew(a, b) && Common(a, commits)
    ensures Common(b, commits)
  {
    assert forall i :: 0 <= i < |a.accepted| ==> b.accepted[i] == a.accepted[i];
    forall i | 1 <= i < |b.requests|
      ensures Waiting(b, i)
    {
      if i < |a.requests| { assert Waiting(a, i); }
    }
    if a.requests == [] && b.requests != [] { assert Waiting(b, 0); }
  }

  lemma {:induction false} GrewQuiet(a: Att, b: Att, server: Server)
    requires Grew(a, b) && Quiet(a, server)
    ensures Quiet(b, server)
  {
    GrewCommon(a, b, server.commits);
    if a.requests == [] && b.requests != [] {
      assert Waiting(b, 0);
    } else if a.requests != [] {
      assert b.requests[0] == a.requests[0];
    }
  }

  lemma {:induction false} GrewAnswering(a: Att, b: Att, server: Server, reply: Bytes)
    requires Grew(a, b) && Answering(a, server, reply)
    ensures Answering(b, server, reply)
  {
    GrewCommon(a, b, server.commits);
    assert b.requests[0] == a.requests[0];
  }

  lemma {:induction false} EnqueueGrows(a: Att, kind: Kind, packet: Bytes, longValue: Bytes)
    requires QueueInv(a)
    requires packet != [] && packet[0] % 2 == 0 && packet[0] != OP_PREPARE && packet[0] != OP_EXECUTE
    requires longValue != [] ==> |packet| == 3 && kind == Plain && |longValue| <= MAX_VALUE
    requires kind.Mtu? ==> DEFAULT_MTU <= kind.maximum <= MAX_MTU && packet[0] == OP_MTU_REQUEST
    ensures Grew(a, Enqueue(a, kind, packet, longValue).0)
  {
    hide QueueInv, PrepareAt, RequestOk, Preparing, HandleOf, SendNext;
    AllNumbered(a);
    EnqueueKeeps(a, kind, packet, longValue);
    if a.connected && |a.requests| < MAX_PENDING {
      var r := Request(|a.accepted|, kind, packet, longValue, 0);
      var pending := if longValue != [] then PrepareAt(r, a.mtu, 0) else r;
      var c := a.(requests := a.requests + [pending], accepted := a.accepted + [Asked(packet, longValue)]);
      if longValue != [] { FreshWaits(a, r); }
      SendNextSends(c);
      WaitsAtEnd(a, SendNext(c), pending, Asked(packet, longValue));
    }
  }

  lemma {:induction false} AllNumbered(a: Att)
    requires QueueInv(a)
    ensures |a.completed| + |a.requests| == |a.accepted|
    ensures a.mtu >= DEFAULT_MTU
  {
  }

  lemma {:induction false} SendNextSends(a: Att)
    ensures var b := SendNext(a);
      && b.requests == a.requests
      && b.accepted == a.accepted
      && b.completed == a.completed
      && b.connected == a.connected
      && (a.busy ==> b.busy)
  {
  }

  /** A long write begins with the fragment at offset 0, for the handle it was asked for. */
  lemma {:induction false} FreshWaits(a: Att, r: Request)
    requires QueueInv(a) && |r.packet| == 3 && r.kind == Plain && 0 < |r.longValue| <= MAX_VALUE && r.prepareError == 0
    ensures var q := PrepareAt(r, a.mtu, 0);
      && Preparing(q) && FragmentStart(q) == 0 && q.longValue == r.longValue
      && |q.packet| >= 3 && q.packet[1..3] == r.packet[1..3]
  {
    PreparedOk(r, a.mtu, 0);
    hide Preparing, RequestOk, QueueInv;
    assert PrepareAt(r, a.mtu, 0).packet[1..3] == r.packet[1..3];
  }

  lemma {:induction false} WaitsAtEnd(a: Att, b: Att, r: Request, asked: Asked)
    requires QueueInv(a) && QueueInv(b) && |a.completed| + |a.requests| == |a.accepted|
    requires b.requests == a.requests + [r] && b.accepted == a.accepted + [asked] && b.completed == a.completed
    requires a.connected == b.connected && (a.busy ==> b.busy)
    requires r.longValue != [] ==> |asked.packet| == 3 && Preparing(r) && FragmentStart(r) == 0
    requires if r.longValue == [] then r.packet == asked.packet else r.packet[1..3] == asked.packet[1..3]
    ensures Grew(a, b)
  {
    hide QueueInv, Preparing;
    var n := |a.requests|;
    assert b.accepted[|b.completed| + n] == asked;
    assert Waiting(b, n);
  }

  lemma {:induction false} WriteGrows(a: Att, handle: nat, value: Bytes)
    requires QueueInv(a) && handle < 0x10000
    ensures Grew(a, Write(a, handle, value).0)
  {
    if |value| > MAX_VALUE {
    } else if |value| > a.mtu - 3 {
      EnqueueGrows(a, Plain, [OP_WRITE] + Le16(handle), value);
    } else {
      EnqueueGrows(a, Plain, [OP_WRITE] + Le16(handle) + value, []);
    }
  }

  lemma {:induction false} PerformGrowsOrCloses(a: Att, call: Call)
    requires QueueInv(a) && CallOk(call)
    ensures Grew(a, Perform(a, call)) || Perform(a, call) == Clear(a)
  {
    match call {
      case Issue(packet, longValue) => EnqueueGrows(a, Plain, packet, longValue);
      case Exchange(maximum) =>
        if !a.mtuExchanged {
          var offered := a.(localMtu := maximum);
          EnqueueGrows(offered, Mtu(maximum), [OP_MTU_REQUEST] + Le16(maximum), []);
        }
      case Teardown =>
    }
  }

  /** Closing reports every queued long write as lost, whatever became of it. */
  lemma {:induction false} ClearQuiet(a: Att, server: Server)
    requires Numbered(a) && CommitsOk(a, server.commits) && Verdicts(a, server.commits)
    ensures Quiet(Clear(a), server)
  {
    ClearKeeps(a);
    var b := Clear(a);
    forall i | 0 <= i < |b.completed| && b.accepted[i].longValue != []
      ensures b.completed[i].ending == Answered ==> (b.completed[i].error == 0 <==> Committed(server.commits, i))
      ensures b.completed[i].ending == LinkLost ==> b.completed[i].error != 0
    {
      if i < |a.completed| { assert b.completed[i] == a.completed[i]; }
    }
  }

  lemma {:induction false} ReentrantQuiet(a: Att, calls: seq<Call>, server: Server)
    requires Quiet(a, server) && forall c :: c in calls ==> CallOk(c)
    ensures Quiet(Reentrant(a, calls), server)
    decreases |calls|
  {
    hide Quiet;
    if calls != [] {
      assert QueueInv(a) && Numbered(a) && CommitsOk(a, server.commits) && Verdicts(a, server.commits)
        by { QuietParts(a, server); }
      PerformGrowsOrCloses(a, calls[0]);
      if Grew(a, Perform(a, calls[0])) { GrewQuiet(a, Perform(a, calls[0]), server); } else { ClearQuiet(a, server); }
      ReentrantQuiet(Perform(a, calls[0]), calls[1..], server);
    }
  }

  lemma {:induction false} QuietParts(a: Att, server: Server)
    requires Quiet(a, server)
    ensures QueueInv(a)
    ensures Numbered(a)
    ensures CommitsOk(a, server.commits)
    ensures Verdicts(a, server.commits)
  {
  }

  lemma {:induction false} SendNextQuiet(a: Att, server: Server)
    requires Quiet(a, server)
    ensures Quiet(SendNext(a), server)
  {
    SendNextKeeps(a);
    assert Grew(a, SendNext(a));
    GrewQuiet(a, SendNext(a), server);
  }

  // ----- The reply arrives -----

  /** What survives a handler that throws, for the link is closed at once. */
  predicate Closeable(b: Att, server: Server) {
    && Numbered(b)
    && CommitsOk(b, server.commits)
    && Verdicts(b, server.commits)
  }

  /** Removing the front request with a true verdict; the next long write starts on an empty queue. */
  lemma {:induction false} PoppedQuiet(a: Att, error: Byte, value: Bytes, told: bool, server: Server)
    requires Common(a, server.commits) && a.busy && a.connected && server.queue == []
    requires forall c :: c in server.commits ==> c.id <= |a.completed|
    requires a.requests[0].longValue != [] ==> (error == 0 <==> Committed(server.commits, |a.completed|))
    ensures Quiet(Popped(a, error, value, told).(outstanding := 0), server)
  {
    var b := Popped(a, error, value, told).(outstanding := 0);
    PoppedKeeps(a.(outstanding := 0), error, value, told);
    PoppedVerdicts(a, error, value, told, server.commits);
    PoppedWaiting(a, error, value, told);
    assert CommitsOk(b, server.commits);
    hide QueueInv, Preparing, CommitsOk, Verdicts;
    if b.requests != [] { assert Waiting(b, 0); }
  }

  lemma {:induction false} PoppedVerdicts(a: Att, error: Byte, value: Bytes, told: bool, commits: seq<Commit>)
    requires Numbered(a) && Verdicts(a, commits) && a.requests != []
    requires a.requests[0].longValue != [] ==> (error == 0 <==> Committed(commits, |a.completed|))
    ensures Verdicts(Popped(a, error, value, told).(outstanding := 0), commits)
  {
    var b := Popped(a, error, value, told).(outstanding := 0);
    forall i | 0 <= i < |b.completed| && b.accepted[i].longValue != []
      ensures b.completed[i].ending == Answered ==> (b.completed[i].error == 0 <==> Committed(commits, i))
      ensures b.completed[i].ending == LinkLost ==> b.completed[i].error != 0
    {
      if i < |a.completed| { assert b.completed[i] == a.completed[i]; }
    }
  }

  lemma {:induction false} PoppedWaiting(a: Att, error: Byte, value: Bytes, told: bool)
    requires QueueInv(a) && a.requests != [] && (forall i :: 1 <= i < |a.requests| ==> Waiting(a, i))
    requires QueueInv(Popped(a, error, value, told).(outstanding := 0))
    ensures var b := Popped(a, error, value, told).(outstanding := 0);
      forall i :: 0 <= i < |b.requests| ==> Waiting(b, i)
  {
    hide QueueInv, Preparing;
    var b := Popped(a, error, value, told).(outstanding := 0);
    forall i | 0 <= i < |b.requests|
      ensures Waiting(b, i)
    {
      assert Waiting(a, i + 1);
      assert b.requests[i] == a.requests[i + 1];
    }
  }

  lemma {:induction false} AgreeQuiet(a: Att, mtu: nat, server: Server)
    requires Quiet(a, server) && DEFAULT_MTU <= mtu <= MAX_MTU
    ensures Quiet(a.(mtu := mtu, mtuExchanged := true), server)
  {
    var b := a.(mtu := mtu, mtuExchanged := true);
    AgreeKeeps(a, mtu);
    assert Grew(a, b);
    GrewQuiet(a, b, server);
  }

  lemma {:induction false} FinishQuiet(a: Att, error: Byte, value: Bytes, calls: seq<Call>, server: Server)
    requires Common(a, server.commits) && a.busy && a.connected && server.queue == []
    requires forall c :: c in server.commits ==> c.id <= |a.completed|
    requires a.requests[0].longValue != [] ==> (error == 0 <==> Committed(server.commits, |a.completed|))
    requires forall c :: c in calls ==> CallOk(c)
    requires RequestOk(a.requests[0])
    ensures match Finish(a.(outstanding := 0), error, value, calls)
      case Returns(b) => Quiet(b, server)
      case Throws(b) => Closeable(b, server)
  {
    hide Quiet;
    var front := a.requests[0];
    var exchange := front.kind.Mtu? && error == 0;
    var told := !exchange || MtuResponseOk(value);
    var popped := Popped(a, error, value, told).(outstanding := 0);
    PoppedQuiet(a, error, value, told, server);
    if told {
      var mtu := if exchange then Min(if a.mtuExchanged then a.mtu else front.kind.maximum, ReadLe16(value)) else a.mtu;
      var agreed := if exchange then popped.(mtu := mtu, mtuExchanged := true) else popped;
      if exchange { AgreeQuiet(popped, mtu, server); }
      ReentrantQuiet(agreed, calls, server);
      SendNextQuiet(Reentrant(agreed, calls), server);
    } else {
      QuietParts(popped, server);
    }
  }

  lemma {:induction false} NotBoth(r: Request)
    ensures !(Preparing(r) && Executing(r))
  {
  }

  lemma {:induction false} BusyParts(a: Att)
    requires QueueInv(a) && a.busy
    ensures a.requests != [] && Numbered(a.(outstanding := 0)) && Bounded(a.(outstanding := 0))
    ensures |a.completed| <= |a.accepted|
    ensures RequestOk(a.requests[0])
  {
  }

  /** A retry after encryption, with the server's queue as it was. */
  lemma {:induction false} RetryQuiet(a: Att, server: Server)
    requires Common(a, server.commits) && a.busy && a.connected
    requires forall c :: c in server.commits ==> c.id < |a.completed|
    requires var f := a.requests[0];
      if f.longValue == [] then server.queue == []
      else Preparing(f) && Tiles(server.queue, HandleOf(a, |a.completed|), f.longValue, FragmentStart(f))
    ensures Quiet(a.(outstanding := 0, busy := false, securityPending := true, security := Working), server)
  {
    hide QueueInv, Preparing, Executing, RequestOk, Tiles;
    BusyParts(a);
    NotBoth(a.requests[0]);
    var b := a.(outstanding := 0, busy := false, securityPending := true, security := Working);
    WaitingKeeps(a.(outstanding := 0));
    forall i | 1 <= i < |b.requests|
      ensures Waiting(b, i)
    {
      assert Waiting(a, i);
    }
  }

  /** The next phase of the long write at the front. */
  lemma {:induction false} PreparedQuiet(a: Att, fault: Byte, server: Server)
    requires Common(a, server.commits) && a.busy && a.connected
    requires forall c :: c in server.commits ==> c.id < |a.completed|
    requires var f := a.requests[0];
      RequestOk(f) && f.longValue != [] && Preparing(f) &&
      (fault == 0 ==> Tiles(server.queue, HandleOf(a, |a.completed|), f.longValue, FragmentEnd(f)))
    ensures Quiet(SendNext(a.(outstanding := 0, busy := false,
      requests := [AfterPrepare(a.requests[0], a.mtu, fault)] + a.requests[1..])), server)
  {
    var f := a.requests[0];
    assert |f.longValue| <= MAX_VALUE;
    hide AfterPrepare, SendNext, RequestOk, FragmentStart, FragmentEnd;
    var g := AfterPrepare(f, a.mtu, fault);
    NextPhase(f, a.mtu, fault);
    var b := a.(outstanding := 0, busy := false, requests := [g] + a.requests[1..]);
    StepQueue(a, g);
    assert CommitsOk(b, server.commits) && Verdicts(b, server.commits);
    assert HandleOf(b, |b.completed|) == HandleOf(a, |a.completed|);
    forall i | 1 <= i < |b.requests|
      ensures Waiting(b, i)
    {
      assert Waiting(a, i);
      assert b.requests[i] == a.requests[i];
    }
    SendNextQuiet(b, server);
  }

  lemma {:induction false} NextPhase(f: Request, mtu: nat, fault: Byte)
    requires RequestOk(f) && f.longValue != [] && Preparing(f) && mtu >= DEFAULT_MTU
    ensures var g := AfterPrepare(f, mtu, fault);
      && RequestOk(g) && g.id == f.id && g.longValue == f.longValue
      && (fault != 0 ==> Executing(g) && g.prepareError != 0 && !Preparing(g))
      && (fault == 0 && Preparing(g) ==> FragmentStart(g) == FragmentEnd(f) && g.packet[1..3] == f.packet[1..3])
      && (fault == 0 && Executing(g) ==> FragmentEnd(f) == |f.longValue|)
  {
    AfterPrepareOk(f, mtu, fault);
    if fault == 0 && FragmentEnd(f) < |f.longValue| {
      PreparedOk(f, mtu, FragmentEnd(f));
      assert PrepareAt(f, mtu, FragmentEnd(f)).packet[1..3] == f.packet[1..3];
    }
  }

  lemma {:induction false} StepQueue(a: Att, g: Request)
    requires QueueInv(a) && a.busy && RequestOk(g) && g.id == a.requests[0].id && g.longValue == a.requests[0].longValue
    ensures QueueInv(a.(outstanding := 0, busy := false, requests := [g] + a.requests[1..]))
  {
    var b := a.(outstanding := 0, busy := false, requests := [g] + a.requests[1..]);
    forall r | r in b.requests
      ensures RequestOk(r)
    {
      assert r == g || r in a.requests[1..];
    }
  }

  lemma {:induction false} ResponseQuiet(a: Att, server: Server, reply: Bytes, calls: seq<Call>)
    requires Answering(a, server, reply) && RequestOk(a.requests[0]) && forall c :: c in calls ==> CallOk(c)
    ensures match ReceiveResponse(a.(outstanding := 0), reply, calls)
      case Returns(b) => Quiet(b, server)
      case Throws(b) => Closeable(b, server)
  {
    var f := a.requests[0];
    if f.longValue == [] {
      PlainResponse(a, server, reply, calls);
    } else if Preparing(f) {
      PreparingResponse(a, server, reply, calls);
    } else {
      ExecutingResponse(a, server, reply, calls);
    }
  }

  lemma {:induction false} PlainResponse(a: Att, server: Server, reply: Bytes, calls: seq<Call>)
    requires Answering(a, server, reply) && RequestOk(a.requests[0]) && forall c :: c in calls ==> CallOk(c)
    requires a.requests[0].longValue == []
    ensures match ReceiveResponse(a.(outstanding := 0), reply, calls)
      case Returns(b) => Quiet(b, server)
      case Throws(b) => Closeable(b, server)
  {
    hide Quiet, Finish, Closeable, Answering, RequestOk, Preparing, Common;
    AnswerParts(a, server, reply);
    var error := if reply[0] == OP_ERROR && |reply| == 5 then reply[4] else 0;
    PlainShape(a.requests[0]);
    PlainAnswer(a, server, reply);
    RetryQuiet(a, server);
    FinishQuiet(a, error, if error != 0 then [] else reply[1..], calls, server);
  }

  lemma {:induction false} AnswerParts(a: Att, server: Server, reply: Bytes)
    requires Answering(a, server, reply)
    ensures a.requests != [] && reply != []
    ensures a.mtu >= DEFAULT_MTU
  {
  }

  /** What an answer to a request other than a long write says of the server. */
  lemma {:induction false} PlainAnswer(a: Att, server: Server, reply: Bytes)
    requires Answering(a, server, reply) && a.requests != [] && a.requests[0].longValue == []
    ensures Common(a, server.commits) && a.busy && a.connected && server.queue == []
    ensures forall c :: c in server.commits ==> c.id < |a.completed|
    ensures Closeable(a.(outstanding := 0), server)
  {
  }

  lemma {:induction false} PlainShape(r: Request)
    requires RequestOk(r) && r.longValue == []
    ensures r.prepareError == 0
    ensures r.packet[0] != OP_PREPARE
    ensures r.packet[0] != OP_EXECUTE
  {
  }

  lemma {:induction false} PreparingResponse(a: Att, server: Server, reply: Bytes, calls: seq<Call>)
    requires Answering(a, server, reply) && RequestOk(a.requests[0]) && forall c :: c in calls ==> CallOk(c)
    requires a.requests[0].longValue != [] && Preparing(a.requests[0])
    ensures match ReceiveResponse(a.(outstanding := 0), reply, calls)
      case Returns(b) => Quiet(b, server)
      case Throws(b) => Closeable(b, server)
  {
    hide Quiet, Finish;
    var f := a.requests[0];
    if reply[0] == OP_ERROR {
      if (reply[4] == 0x05 || reply[4] == 0x0F) && !a.security.Encrypted? {
        RetryQuiet(a, server);
      } else {
        PreparedQuiet(a, reply[4], server);
      }
    } else if reply[1..] == f.packet[1..] {
      PreparedQuiet(a, 0, server);
    } else {
      PreparedQuiet(a, BAD_ECHO, server);
    }
  }

  lemma {:induction false} ExecutingResponse(a: Att, server: Server, reply: Bytes, calls: seq<Call>)
    requires Answering(a, server, reply) && RequestOk(a.requests[0]) && forall c :: c in calls ==> CallOk(c)
    requires a.requests[0].longValue != [] && !Preparing(a.requests[0])
    ensures match ReceiveResponse(a.(outstanding := 0), reply, calls)
      case Returns(b) => Quiet(b, server)
      case Throws(b) => Closeable(b, server)
  {
    hide Quiet, Finish;
    var f := a.requests[0];
    assert Executing(f);
    if f.prepareError == 0 {
      FinishQuiet(a, if reply == [0x19] then 0 else reply[4], if reply == [0x19] then reply[1..] else [], calls,
        server);
    } else {
      FinishQuiet(a, f.prepareError, [], calls, server);
    }
  }

  lemma {:induction false} ArrivesQuiet(a: Att, server: Server, reply: Bytes, calls: seq<Call>)
    requires Answering(a, server, reply) && forall c :: c in calls ==> CallOk(c)
    ensures Quiet(Handle(a, reply, calls), server)
  {
    hide Quiet, ReceiveResponse;
    var f := a.requests[0];
    assert RequestOk(f);
    assert Closeable(a, server);
    ClearQuiet(a, server);
    assert a.outstanding - 1 == 0;
    if f.longValue == [] && (reply[0] % 2 == 0 || reply[0] == OP_NOTIFY || reply[0] == OP_INDICATE) {
      StrayReplyQuiet(a, server, reply);
    }
    ResponseQuiet(a, server, reply, calls);
    match Receive(a, reply, calls) {
      case Returns(b) =>
      case Throws(b) => ClearQuiet(b, server);
    }
  }

  /** An answer the client does not take for one: at most the MTU changes, and the request stays outstanding. */
  lemma {:induction false} StrayReplyQuiet(a: Att, server: Server, reply: Bytes)
    requires Answering(a, server, reply) && a.requests[0].longValue == []
    ensures Quiet(a, server)
    ensures |reply| == 3 && ReadLe16(reply[1..]) >= DEFAULT_MTU ==>
      Quiet(a.(mtu := Min(a.localMtu, ReadLe16(reply[1..])), mtuExchanged := true), server)
  {
    if |reply| == 3 && ReadLe16(reply[1..]) >= DEFAULT_MTU {
      AgreeQuiet(a, Min(a.localMtu, ReadLe16(reply[1..])), server);
    }
  }

  // ----- The other steps -----

  lemma {:induction false} LocalSound(s: System, e: Event)
    requires Sound(s) && QueueInv(s.a) && LocalOk(e)
    ensures Sound(Happen(s, Local(e)))
  {
    var b := Apply(s.a, e);
    ApplyKeeps(s.a, e);
    hide Quiet, Answering;
    match e {
      case Does(call) =>
        PerformGrowsOrCloses(s.a, call);
        StaysSound(s, b);
      case Writes(handle, value) =>
        WriteGrows(s.a, handle, value);
        StaysSound(s, b);
      case Opens(bonded) =>
        OpenSound(s, bonded);
      case Receives(pdu, calls) =>
        ReceivesLocally(s, pdu, calls);
        StaysSound(s, b);
      case Secures =>
        SecuresGrows(s.a);
        StaysSound(s, b);
    }
  }

  lemma {:induction false} OpenSound(s: System, bonded: bool)
    requires Sound(s) && QueueInv(s.a)
    ensures Sound(Happen(s, Local(Opens(bonded))))
  {
  }

  lemma {:induction false} SecuresGrows(a: Att)
    requires QueueInv(a)
    ensures Grew(a, SecurityReady(a))
  {
    if a.security.Working? { SendNextKeeps(a.(security := Encrypted, securityPending := false)); }
  }

  lemma {:induction false} ReceivesLocally(s: System, pdu: Bytes, calls: seq<Call>)
    requires QueueInv(s.a) && LocalOk(Receives(pdu, calls))
    ensures var b := Handle(s.a, pdu, calls); Grew(s.a, b) || b == Clear(s.a)
  {
    HandleKeeps(s.a, pdu, calls);
  }

  lemma {:induction false} StaysSound(s: System, b: Att)
    requires Sound(s) && QueueInv(s.a) && (Grew(s.a, b) || b == Clear(s.a))
    ensures Sound(Settle(s.(a := b)))
  {
    if Grew(s.a, b) {
      if s.reply.None? { GrewQuiet(s.a, b, s.server); } else { GrewAnswering(s.a, b, s.server, s.reply.value); }
    } else {
      ClearQuiet(s.a, s.server);
    }
    if !b.connected { QuietWithoutQueue(b, s.server); }
  }

  lemma {:induction false} QuietWithoutQueue(a: Att, server: Server)
    requires !a.connected
    ensures Quiet(a, server) ==> Quiet(a, server.(queue := []))
  {
  }

  lemma {:induction false} TilesAppend(q: seq<Part>, handle: Bytes, value: Bytes, p: Part)
    requires Tiles(q, handle, value, p.offset) && p.handle == handle && p.bytes != []
    requires p.offset + |p.bytes| <= |value| && p.bytes == value[p.offset..p.offset + |p.bytes|]
    ensures Tiles(q + [p], handle, value, p.offset + |p.bytes|)
  {
    assert (q + [p])[..|q|] == q;
  }

  lemma {:induction false} AnswersSound(s: System, choice: Choice)
    requires Sound(s) && QueueInv(s.a) && s.a.busy && s.reply.None?
    ensures Sound(Happen(s, Answers(choice)))
  {
    var f := s.a.requests[0];
    assert RequestOk(f);
    var (server, reply) := Answer(s.server, f.id, f.packet, choice);
    if f.longValue == [] {
      assert Answering(s.a, server, reply);
    } else if Preparing(f) {
      AnswersPrepare(s.a, s.server, choice);
    } else {
      AnswersExecute(s.a, s.server, choice);
    }
  }

  lemma {:induction false} AnswersPrepare(a: Att, server: Server, choice: Choice)
    requires Quiet(a, server) && a.busy && a.requests[0].longValue != [] && Preparing(a.requests[0])
    ensures var r := Answer(server, a.requests[0].id, a.requests[0].packet, choice); Answering(a, r.0, r.1)
  {
    var f := a.requests[0];
    if choice.Grant? {
      TilesAppend(server.queue, HandleOf(a, |a.completed|), f.longValue,
        Part(f.packet[1..3], FragmentStart(f), f.packet[5..]));
    }
  }

  lemma {:induction false} AnswersExecute(a: Att, server: Server, choice: Choice)
    requires Quiet(a, server) && a.busy && a.requests[0].longValue != [] && Executing(a.requests[0])
    ensures var r := Answer(server, a.requests[0].id, a.requests[0].packet, choice); Answering(a, r.0, r.1)
  {
    var f := a.requests[0];
    if choice.Grant? && f.packet[1] == 1 {
      CommitKeeps(a, server);
      hide Tiles, QueueInv, CommitsOk, Verdicts;
    } else {
      NotCommitted(a, server);
      hide Tiles, QueueInv, CommitsOk, Verdicts;
    }
  }

  lemma {:induction false} NotCommitted(a: Att, server: Server)
    requires forall c :: c in server.commits ==> c.id < |a.completed|
    ensures !Committed(server.commits, |a.completed|)
  {
  }

  /** Executing the whole value commits the request at the front, which was not committed before. */
  lemma {:induction false} CommitKeeps(a: Att, server: Server)
    requires Quiet(a, server) && a.busy && a.connected && a.requests[0].longValue != [] && Executing(a.requests[0])
    requires a.requests[0].prepareError == 0
    ensures a.requests[0].id == |a.completed|
    ensures var commits := server.commits + [Commit(a.requests[0].id, server.queue)];
      && Common(a, commits)
      && (forall c :: c in commits ==> c.id <= |a.completed|)
      && Committed(commits, |a.completed|)
  {
    var f := a.requests[0];
    var commits := server.commits + [Commit(f.id, server.queue)];
    FrontIs(a);
    hide QueueInv, Tiles;
    assert commits[|server.commits|] in commits;
    CommitsStayOk(a, server, f);
    VerdictsStay(a, server, f.id);
  }

  lemma {:induction false} FrontIs(a: Att)
    requires QueueInv(a) && a.requests != []
    ensures a.requests[0].id == |a.completed| < |a.accepted|
    ensures a.requests[0].longValue == a.accepted[|a.completed|].longValue
    ensures |a.completed| <= |a.accepted|
  {
  }

  lemma {:induction false} CommitsStayOk(a: Att, server: Server, f: Request)
    requires CommitsOk(a, server.commits) && f.id == |a.completed| < |a.accepted|
    requires f.longValue == a.accepted[f.id].longValue
    requires Tiles(server.queue, HandleOf(a, f.id), f.longValue, |f.longValue|)
    requires forall c :: c in server.commits ==> c.id < |a.completed|
    ensures CommitsOk(a, server.commits + [Commit(f.id, server.queue)])
  {
    hide Tiles, HandleOf;
  }

  lemma {:induction false} VerdictsStay(a: Att, server: Server, id: nat)
    requires |a.completed| <= |a.accepted| && Verdicts(a, server.commits) && id == |a.completed|
    ensures Verdicts(a, server.commits + [Commit(id, server.queue)])
  {
    var commits := server.commits + [Commit(id, server.queue)];
    forall i | 0 <= i < |a.completed|
      ensures Committed(commits, i) <==> Committed(server.commits, i)
    {
    }
  }

  lemma {:induction false} HappenSound(s: System, h: Happening)
    requires Sound(s) && QueueInv(s.a) && HappeningOk(h)
    ensures Sound(Happen(s, h)) && QueueInv(Happen(s, h).a)
  {
    match h {
      case Local(e) =>
        LocalSound(s, e);
        ApplyKeeps(s.a, e);
      case Answers(choice) => if s.a.busy && s.reply.None? { AnswersSound(s, choice); }
      case Arrives(calls) =>
        if s.reply.Some? {
          ArrivesQuiet(s.a, s.server, s.reply.value, calls);
          HandleKeeps(s.a, s.reply.value, calls);
          if !Handle(s.a, s.reply.value,
            calls).connected { QuietWithoutQueue(Handle(s.a, s.reply.value, calls), s.server); }
        }
    }
  }

  function Start(): System {
    System(AttSafety.Start(), Server([], []), None)
  }

  function Run(happenings: seq<Happening>): (s: System)
    requires forall h :: h in happenings ==> HappeningOk(h)
    ensures Sound(s) && QueueInv(s.a)
  {
    if happenings == [] then Start()
    else
      var before := Run(happenings[..|happenings| - 1]);
      HappenSound(before, happenings[|happenings| - 1]);
      Happen(before, happenings[|happenings| - 1])
  }

  /**
    A long write is atomic, against any server and through MTU changes, encryption retries and lost links.
    The server only ever executes whole values, each at most once: the fragments are the value, in order.
    A long write that was answered reports success exactly when it was executed; one whose link was lost reports
    failure.
   */
  lemma {:induction false} LongWritesAreAtomic(happenings: seq<Happening>)
    requires forall h :: h in happenings ==> HappeningOk(h)
    ensures var s := Run(happenings);
      && (forall c :: c in s.server.commits ==>
           && c.id < |s.a.accepted|
           && Concat(c.parts) == s.a.accepted[c.id].longValue
           && forall p :: p in c.parts ==> p.handle == HandleOf(s.a, c.id))
      && (forall i, j :: 0 <= i < j < |s.server.commits| ==> s.server.commits[i].id != s.server.commits[j].id)
      && (forall i :: 0 <= i < |s.a.completed| && s.a.accepted[i].longValue != [] ==>
            && (s.a.completed[i].ending == Answered ==>
                 (s.a.completed[i].error == 0 <==> Committed(s.server.commits, i)))
            && (s.a.completed[i].ending == LinkLost ==> s.a.completed[i].error != 0))
  {
    var s := Run(happenings);
    assert CommitsOk(s.a, s.server.commits) && Verdicts(s.a, s.server.commits);
    forall c | c in s.server.commits
      ensures c.id < |s.a.accepted|
      ensures Concat(c.parts) == s.a.accepted[c.id].longValue
      ensures forall p :: p in c.parts ==> p.handle == HandleOf(s.a, c.id)
    {
      var value := s.a.accepted[c.id].longValue;
      TilesSpell(c.parts, HandleOf(s.a, c.id), value, |value|);
      TilesReach(c.parts, HandleOf(s.a, c.id), value, |value|);
    }
  }

  /**
    A write is turned away exactly when its value is over 512 bytes, there is no link, or the queue is full. Otherwise
    it asks for this value at this handle, whole or, if it does not fit one PDU, as a long write.
   */
  lemma {:induction false} WritesReachTheHandle(a: Att, handle: nat, value: Bytes)
    requires QueueInv(a) && handle < 0x10000
    ensures var (b, ok) := Write(a, handle, value);
      && (ok <==> |value| <= MAX_VALUE && a.connected && |a.requests| < MAX_PENDING)
      && (!ok ==> b == a)
      && (ok ==>
            && |b.accepted| == |a.accepted| + 1
            && a.accepted <= b.accepted
            && var asked := b.accepted[|a.accepted|];
               && |asked.packet| >= 3
               && asked.packet[0] == OP_WRITE
               && ReadLe16(HandleOf(b, |a.accepted|)) == handle
               && asked.packet[3..] + asked.longValue == value
               && (asked.longValue != [] <==> |value| > a.mtu - 3))
  {
    hide PrepareAt;
    ReadWritten(handle, value);
    assert ([OP_WRITE] + Le16(handle) + value)[3..] == value;
    assert ([OP_WRITE] + Le16(handle) + value)[1..3] == Le16(handle);
    assert ([OP_WRITE] + Le16(handle))[1..3] == Le16(handle);
    assert [] + value == value && value + [] == value;
  }
}
