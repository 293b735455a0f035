/** What a caller is told is what the server answered: every run of `LongWrite` with a log of the server's answers. */
module AttAnswers {
  import opened Bits
  import opened AttQueue
  import opened AttSafety
  import opened LongWrite

  // ----- The log -----

  /** One answer of the server: the number of the request, the PDU it saw, and what it chose. */
  datatype Said = Said(id: nat, pdu: Bytes, choice: Choice)

  function SaidBy(happenings: seq<Happening>): seq<Said>
    requires forall h :: h in happenings ==> HappeningOk(h)
  {
    if happenings == [] then []
    else
      var before, h := happenings[..|happenings| - 1], happenings[|happenings| - 1];
      SaidBy(before) + SaidNow(Run(before), h)
  }

  function SaidNow(s: System, h: Happening): seq<Said>
    requires QueueInv(s.a)
  {
    if h.Answers? && s.a.busy && s.reply.None? then [Said(s.a.requests[0].id, s.a.requests[0].packet, h.choice)] else []
  }

  predicate IsPrepare(e: Said) {
    e.pdu != [] && e.pdu[0] == OP_PREPARE
  }

  predicate IsExecute(e: Said) {
    e.pdu != [] && e.pdu[0] == OP_EXECUTE
  }

  /** The error an answer amounts to, 0 for none. The code 0 is no error, and a refusal never carries it. */
  function Fault(e: Said): Byte {
    match e.choice
    case Grant => 0
    case Refuse(error) => if error != 0 then error else 1
    case Garble(echo, _) =>
      if IsPrepare(e) then (if echo == e.pdu[1..] then 1 else BAD_ECHO) else if IsExecute(e) then 1 else 0
  }

  /** What an answer without error carries. */
  function Value(e: Said): Bytes {
    if e.choice.Garble? && Fault(e) == 0 then e.choice.echo else []
  }

  /** The PDU that says so. */
  function Reply(e: Said): Bytes
    requires e.pdu != [] && e.pdu[0] < 255
  {
    if e.choice.Garble? && IsPrepare(e) && e.choice.echo != e.pdu[1..] then [0x17] + e.choice.echo
    else if Fault(e) != 0 then ErrorReply(e.pdu[0], Fault(e))
    else [e.pdu[0] + 1] + if IsPrepare(e) then e.pdu[1..] else Value(e)
  }

  /** The last answer to a request, or to one of its prepared fragments. */
  function Last(said: seq<Said>, id: nat, fragments: bool): Option<Said> {
    if said == [] then None
    else
      var e := said[|said| - 1];
      if e.id == id && (fragments ==> IsPrepare(e)) then Some(e) else Last(said[..|said| - 1], id, fragments)
  }

  // ----- What callers are told -----

  /** No PDU has opcode 0: the response to it would read as an error. */
  predicate IsRequest(asked: Asked) {
    asked.packet != [] && asked.packet[0] != 0
  }

  /**
    A plain request was seen by the server as it was asked, and ends with the error and the value of the last answer to
    it. A long write ends with the error of the last answer to its fragments, or else with that of its execution.
   */
  predicate ToldTruly(asked: Asked, c: Completion, said: seq<Said>) {
    var last := Last(said, c.id, false);
    && last.Some?
    && if asked.longValue == [] then
         && last.value.pdu == asked.packet && !IsPrepare(last.value) && !IsExecute(last.value)
         && c.error == Fault(last.value)
         && c.value == Value(last.value)
       else
         var fragment := Last(said, c.id, true);
         && fragment.Some?
         && last.value.pdu == [OP_EXECUTE, if Fault(fragment.value) == 0 then 1 else 0]
         && c.error == (if Fault(fragment.value) != 0 then Fault(fragment.value) else Fault(last.value))
         && c.value == []
  }

  predicate AllToldTruly(a: Att, said: seq<Said>)
    requires |a.completed| <= |a.accepted|
  {
    forall i :: 0 <= i < |a.completed| && a.completed[i].ending == Answered && IsRequest(a.accepted[i]) ==>
      ToldTruly(a.accepted[i], a.completed[i], said)
  }

  // ----- The invariant -----

  /** A long write that is executed or cancelled knows how the server answered its fragments. */
  predicate KnowsFragments(r: Request, said: seq<Said>) {
    r.longValue != [] && Executing(r) ==>
      var fragment := Last(said, r.id, true);
      fragment.Some? && Fault(fragment.value) == r.prepareError
  }

  predicate AllKnow(a: Att, said: seq<Said>) {
    forall r :: r in a.requests ==> KnowsFragments(r, said)
  }

  /** The reply on the way is the last answer to the request at the front. */
  predicate InFlight(s: System, said: seq<Said>) {
    s.reply.Some? ==>
      && s.a.requests != []
      && s.a.requests[0].packet != [] && s.a.requests[0].packet[0] < 255
      && Replies(s.a.requests[0], s.reply.value, said)
  }

  predicate Replies(f: Request, reply: Bytes, said: seq<Said>)
    requires f.packet != [] && f.packet[0] < 255
  {
    var last := Last(said, f.id, false);
    last.Some? && last.value.pdu == f.packet && reply == Reply(last.value)
  }

  predicate Truthful(s: System, said: seq<Said>) {
    && |s.a.completed| <= |s.a.accepted|
    && AllToldTruly(s.a, said)
    && AllKnow(s.a, said)
    && InFlight(s, said)
  }

  // ----- The log as it grows -----

  lemma {:induction false} LastMore(said: seq<Said>, e: Said, id: nat, fragments: bool)
    ensures Last(said + [e], id, fragments) ==
      if e.id == id && (fragments ==> IsPrepare(e)) then Some(e) else Last(said, id, fragments)
  {
    assert (said + [e])[..|said|] == said;
  }

  /** The last answer to a fragment is the last answer, if that is to a fragment. */
  lemma {:induction false} LastFragment(said: seq<Said>, id: nat)
    requires Last(said, id, false).Some? && IsPrepare(Last(said, id, false).value)
    ensures Last(said, id, true) == Last(said, id, false)
  {
    if said[|said| - 1].id != id { LastFragment(said[..|said| - 1], id); }
  }

  lemma {:induction false} LastIsItsOwn(said: seq<Said>, id: nat, fragments: bool)
    ensures Last(said, id, fragments).Some? ==> Last(said, id, fragments).value.id == id
  {
    if said != [] { LastIsItsOwn(said[..|said| - 1], id, fragments); }
  }

  lemma {:induction false} AnswerReplies(server: Server, id: nat, pdu: Bytes, choice: Choice)
    requires pdu != [] && pdu[0] < 255 && (pdu[0] == OP_PREPARE ==> |pdu| > 5) && (pdu[0] == OP_EXECUTE ==> |pdu| == 2)
    ensures Answer(server, id, pdu, choice).1 == Reply(Said(id, pdu, choice))
  {
    assert [0x19] + [] == [0x19];
    assert [pdu[0] + 1] + [] == [pdu[0] + 1];
  }

  /** An answer to the front request touches the record of no other, nor of its fragments once it is executed. */
  lemma {:induction false} SaidMore(s: System, said: seq<Said>, choice: Choice)
    requires QueueInv(s.a) && Truthful(s, said) && s.a.busy && s.reply.None?
    ensures var f := s.a.requests[0];
      Truthful(Happen(s, Answers(choice)), said + [Said(f.id, f.packet, choice)])
  {
    var f := s.a.requests[0];
    assert RequestOk(f);
    var e := Said(f.id, f.packet, choice);
    AnswerReplies(s.server, f.id, f.packet, choice);
    LastMore(said, e, f.id, false);
    hide Reply, Answer, Last, Fault, Value;
    AnsweredToldTruly(s.a, said, e);
    forall r | r in s.a.requests
      ensures KnowsFragments(r, said + [e])
    {
      LastMore(said, e, r.id, true);
      if r.id == f.id { SameRequest(s.a, r); }
    }
  }

  lemma {:induction false} SameRequest(a: Att, r: Request)
    requires QueueInv(a) && r in a.requests && r.id == a.requests[0].id
    ensures r == a.requests[0]
  {
  }

  lemma {:induction false} AnsweredToldTruly(a: Att, said: seq<Said>, e: Said)
    requires QueueInv(a) && a.requests != [] && |a.completed| <= |a.accepted|
    requires AllToldTruly(a, said) && e.id == a.requests[0].id
    ensures AllToldTruly(a, said + [e])
  {
    hide Last, Fault, Value, IsRequest;
    forall i | 0 <= i < |a.completed| && a.completed[i].ending == Answered && IsRequest(a.accepted[i])
      ensures ToldTruly(a.accepted[i], a.completed[i], said + [e])
    {
      LastMore(said, e, i, false);
      LastMore(said, e, i, true);
    }
  }

  // ----- Steps that complete nothing but what the link takes along -----

  predicate Unexecuted(r: Request) {
    r.longValue != [] ==> !Executing(r)
  }

  /** Whatever was completed was lost, and no request reached its execution. */
  predicate Follows(a: Att, b: Att) {
    && a.completed <= b.completed
    && a.accepted <= b.accepted
    && (forall i :: |a.completed| <= i < |b.completed| ==> b.completed[i].ending == LinkLost)
    && (forall r :: r in b.requests ==> r in a.requests || Unexecuted(r))
  }

  lemma {:induction false} FollowsKeeps(a: Att, b: Att, said: seq<Said>)
    requires Follows(a, b) && |a.completed| <= |a.accepted| && |b.completed| <= |b.accepted|
    requires AllToldTruly(a, said) && AllKnow(a, said)
    ensures AllToldTruly(b, said) && AllKnow(b, said)
  {
    hide ToldTruly, IsRequest, Executing;
    forall i | 0 <= i < |b.completed| && b.completed[i].ending == Answered && IsRequest(b.accepted[i])
      ensures ToldTruly(b.accepted[i], b.completed[i], said)
    {
      assert i < |a.completed|;
      assert b.completed[i] == a.completed[i] && b.accepted[i] == a.accepted[i];
    }
  }

  lemma {:induction false} FollowsTwice(a: Att, b: Att, c: Att)
    requires Follows(a, b) && Follows(b, c)
    ensures Follows(a, c)
  {
    hide Unexecuted;
    forall i | |a.completed| <= i < |c.completed|
      ensures c.completed[i].ending == LinkLost
    {
      if i < |b.completed| { assert c.completed[i] == b.completed[i]; }
    }
  }

  lemma {:induction false} GrewFollows(a: Att, b: Att)
    requires Grew(a, b)
    ensures Follows(a, b)
  {
    forall r | r in b.requests
      ensures r in a.requests || Unexecuted(r)
    {
      var i :| 0 <= i < |b.requests| && b.requests[i] == r;
      if i >= |a.requests| {
        assert Waiting(b, i);
        NotBoth(r);
      }
    }
  }

  lemma {:induction false} ClearFollows(a: Att)
    ensures Follows(a, Clear(a))
  {
  }

  lemma {:induction false} SendNextFollows(a: Att)
    ensures Follows(a, SendNext(a))
  {
    hide Unexecuted;
  }

  lemma {:induction false} ReentrantFollows(a: Att, calls: seq<Call>)
    requires QueueInv(a) && forall c :: c in calls ==> CallOk(c)
    ensures Follows(a, Reentrant(a, calls))
    decreases |calls|
  {
    hide QueueInv, Follows, Perform, Clear, Grew, CallOk;
    Stays(a);
    if calls != [] {
      var b := Perform(a, calls[0]);
      PerformKeeps(a, calls[0]);
      PerformGrowsOrCloses(a, calls[0]);
      ClearFollows(a);
      if Grew(a, b) { GrewFollows(a, b); }
      ReentrantFollows(b, calls[1..]);
      FollowsTwice(a, b, Reentrant(b, calls[1..]));
    }
  }

  lemma {:induction false} Stays(a: Att)
    requires QueueInv(a)
    ensures Follows(a, a) && a.mtu >= DEFAULT_MTU
  {
  }

  // ----- A reply arrives -----

  lemma {:induction false} PoppedTruthful(a: Att, error: Byte, value: Bytes, told: bool, said: seq<Said>)
    requires a.requests != [] && |a.completed| < |a.accepted|
    requires AllToldTruly(a, said) && AllKnow(a, said)
    requires var asked := a.accepted[|a.completed|];
      IsRequest(asked) ==> ToldTruly(asked, Completion(a.requests[0].id, error, value, Answered, told), said)
    ensures AllToldTruly(Popped(a, error, value, told), said) && AllKnow(Popped(a, error, value, told), said)
  {
    hide ToldTruly, IsRequest, KnowsFragments;
    assert forall r :: r in a.requests[1..] ==> r in a.requests;
  }

  /** The lists agree in number, and what was told was told truly. */
  predicate Fine(a: Att, said: seq<Said>) {
    |a.completed| <= |a.accepted| && AllToldTruly(a, said) && AllKnow(a, said)
  }

  lemma {:induction false} FollowsFine(a: Att, b: Att, said: seq<Said>)
    requires Fine(a, said) && Follows(a, b) && QueueInv(b)
    ensures Fine(b, said)
  {
    AllNumbered(b);
    FollowsKeeps(a, b, said);
  }

  lemma {:induction false} AgreeFollows(a: Att, mtu: nat)
    ensures Follows(a, a.(mtu := mtu, mtuExchanged := true))
  {
    hide Unexecuted;
  }

  /** The result of the front request, told or not, is a true one. */
  predicate TrueResult(a: Att, error: Byte, value: Bytes, said: seq<Said>)
    requires a.requests != [] && |a.completed| < |a.accepted|
  {
    var asked := a.accepted[|a.completed|];
    IsRequest(asked) ==>
      && ToldTruly(asked, Completion(a.requests[0].id, error, value, Answered, true), said)
      && ToldTruly(asked, Completion(a.requests[0].id, error, value, Answered, false), said)
  }

  lemma {:induction false} PoppedFine(a: Att, error: Byte, value: Bytes, told: bool, said: seq<Said>)
    requires Numbered(a) && Bounded(a) && a.requests != [] && a.connected && !a.securityPending && a.outstanding == 0
    requires Fine(a, said) && |a.completed| < |a.accepted| && TrueResult(a, error, value, said)
    ensures QueueInv(Popped(a, error, value, told)) && Fine(Popped(a, error, value, told), said)
  {
    PoppedKeeps(a, error, value, told);
    PoppedTruthful(a, error, value, told, said);
    AllNumbered(Popped(a, error, value, told));
  }

  lemma {:induction false} FinishFine(a: Att, error: Byte, value: Bytes, calls: seq<Call>, said: seq<Said>)
    requires Numbered(a) && Bounded(a) && a.requests != [] && a.connected && !a.securityPending && a.outstanding == 0
    requires RequestOk(a.requests[0]) && a.mtu >= DEFAULT_MTU && forall c :: c in calls ==> CallOk(c)
    requires Fine(a, said) && |a.completed| < |a.accepted| && TrueResult(a, error, value, said)
    ensures Fine(Finish(a, error, value, calls).a, said)
  {
    hide Fine, QueueInv, Numbered, Bounded, Follows, Reentrant, SendNext, TrueResult;
    var front := a.requests[0];
    var exchange := front.kind.Mtu? && error == 0;
    var told := !exchange || MtuResponseOk(value);
    var popped := Popped(a, error, value, told);
    PoppedFine(a, error, value, told, said);
    if told {
      var mtu := if exchange then Min(if a.mtuExchanged then a.mtu else front.kind.maximum, ReadLe16(value)) else a.mtu;
      RangeOk(a, mtu, front);
      var agreed := if exchange then popped.(mtu := mtu, mtuExchanged := true) else popped;
      if exchange {
        AgreeKeeps(popped, mtu);
        AgreeFollows(popped, mtu);
        FollowsFine(popped, agreed, said);
      }
      ReentrantKeeps(agreed, calls);
      ReentrantFollows(agreed, calls);
      FollowsFine(agreed, Reentrant(agreed, calls), said);
      SendNextKeeps(Reentrant(agreed, calls));
      SendNextFollows(Reentrant(agreed, calls));
      FollowsFine(Reentrant(agreed, calls), SendNext(Reentrant(agreed, calls)), said);
    }
  }

  lemma {:induction false} RangeOk(a: Att, mtu: nat, front: Request)
    requires Bounded(a) && RequestOk(front) && (mtu == a.mtu || mtu >= DEFAULT_MTU)
    requires front.kind.Mtu? ==> mtu <= a.mtu || mtu <= front.kind.maximum
    requires !front.kind.Mtu? ==> mtu == a.mtu
    ensures DEFAULT_MTU <= mtu <= MAX_MTU
  {
  }

  /** How the client reads the reply to a plain request. */
  lemma {:induction false} PlainReplyReads(e: Said)
    requires e.pdu != [] && 0 < e.pdu[0] < 255 && e.pdu[0] % 2 == 0 && !IsPrepare(e) && !IsExecute(e)
    ensures var reply := Reply(e);
      if Fault(e) != 0 then reply == ErrorReply(e.pdu[0], Fault(e)) && Value(e) == []
      else reply[0] == e.pdu[0] + 1 != OP_ERROR && reply[1..] == Value(e)
  {
  }

  /** A reply has been taken off: the queue with nothing outstanding. */
  function Taken(a: Att): Att {
    a.(outstanding := a.outstanding - 1)
  }

  lemma {:induction false} TakenParts(a: Att, said: seq<Said>)
    requires QueueInv(a) && a.busy && Fine(a, said)
    ensures var b := Taken(a);
      && Numbered(b) && Bounded(b) && b.requests != [] && b.connected && !b.securityPending && b.outstanding == 0
      && RequestOk(b.requests[0]) && b.mtu >= DEFAULT_MTU && |b.completed| < |b.accepted| && Fine(b, said)
      && a.requests[0].longValue == a.accepted[|a.completed|].longValue
      && a.requests[0].id == |a.completed|
  {
    NumberedIgnoresPace(a);
    hide ToldTruly, IsRequest, KnowsFragments;
  }

  /** A request held back until the link is encrypted is told nothing yet. */
  lemma {:induction false} RetryFine(a: Att, said: seq<Said>)
    requires Fine(a, said)
    ensures Fine(a.(busy := false, securityPending := true, security := Working), said)
  {
    hide ToldTruly, IsRequest, KnowsFragments;
  }

  lemma {:induction false} PlainFine(a: Att, said: seq<Said>, e: Said, calls: seq<Call>)
    requires QueueInv(a) && a.busy && Fine(a, said) && forall c :: c in calls ==> CallOk(c)
    requires a.requests != [] && |a.completed| < |a.accepted| && a.mtu >= DEFAULT_MTU && RequestOk(a.requests[0])
    requires Last(said, a.requests[0].id, false) == Some(e) && e.pdu == a.requests[0].packet
    requires e.pdu != [] && e.pdu[0] < 255 && Reply(e) != []
    requires a.requests[0].longValue == [] && a.requests[0].packet == a.accepted[|a.completed|].packet
    ensures Fine(ReceiveResponse(Taken(a), Reply(e), calls).a, said)
  {
    var b, pdu := Taken(a), Reply(e);
    TakenParts(a, said);
    PlainShape(a.requests[0]);
    PlainOpcode(a.requests[0]);
    var error := if pdu[0] == OP_ERROR && |pdu| == 5 then pdu[4] else 0;
    var value := if error != 0 then [] else pdu[1..];
    if e.pdu[0] != 0 { PlainReplyReads(e); }
    assert TrueResult(b, error, value, said);
    hide Fine, Finish, SendNext, AfterPrepare, TrueResult, Fault, Reply, Value, Last, QueueInv, Numbered, Bounded;
    RetryFine(b, said);
    FinishFine(b, error, value, calls, said);
  }

  lemma {:induction false} PlainOpcode(r: Request)
    requires RequestOk(r) && r.longValue == []
    ensures r.packet != [] && r.packet[0] % 2 == 0
  {
  }

  /** How the client reads the reply to a prepared fragment. */
  lemma {:induction false} PrepareReplyReads(e: Said)
    requires IsPrepare(e) && |e.pdu| > 5
    ensures var reply := Reply(e);
      && reply != []
      && (reply[0] == OP_ERROR ==> reply == ErrorReply(OP_PREPARE, Fault(e)) && Fault(e) != 0)
      && (reply[0] != OP_ERROR ==>
            reply[0] == 0x17 && Fault(e) == if reply[1..] == e.pdu[1..] then 0 else BAD_ECHO)
  {
  }

  lemma {:induction false} ReplacedFine(a: Att, g: Request, said: seq<Said>)
    requires Fine(a, said) && a.requests != [] && KnowsFragments(g, said)
    ensures Fine(a.(busy := false, requests := [g] + a.requests[1..]), said)
  {
    hide ToldTruly, IsRequest, KnowsFragments;
    assert forall r :: r in a.requests[1..] ==> r in a.requests;
  }

  lemma {:induction false} SendNextFine(a: Att, said: seq<Said>)
    requires Fine(a, said)
    ensures Fine(SendNext(a), said)
  {
    hide ToldTruly, IsRequest, KnowsFragments;
  }

  /** The transaction remembers the fault it was told of. */
  lemma {:induction false} StepKnows(f: Request, mtu: nat, e: Said, said: seq<Said>)
    requires RequestOk(f) && f.longValue != [] && Preparing(f) && mtu >= DEFAULT_MTU
    requires Last(said, f.id, true) == Some(e)
    ensures KnowsFragments(AfterPrepare(f, mtu, Fault(e)), said)
  {
    NextPhase(f, mtu, Fault(e));
    hide Fault, Last, RequestOk;
  }

  lemma {:induction false} PreparingFine(a: Att, said: seq<Said>, e: Said, calls: seq<Call>)
    requires QueueInv(a) && a.busy && Fine(a, said) && forall c :: c in calls ==> CallOk(c)
    requires a.requests != [] && a.mtu >= DEFAULT_MTU && RequestOk(a.requests[0])
    requires Last(said, a.requests[0].id, false) == Some(e) && e.pdu == a.requests[0].packet
    requires IsPrepare(e) && |e.pdu| > 5 && Reply(e) != []
    requires a.requests[0].longValue != [] && Preparing(a.requests[0])
    ensures Fine(ReceiveResponse(Taken(a), Reply(e), calls).a, said)
  {
    var b, pdu, f := Taken(a), Reply(e), a.requests[0];
    TakenParts(a, said);
    PrepareReplyReads(e);
    LastFragment(said, f.id);
    StepKnows(f, a.mtu, e, said);
    hide Fine, SendNext, AfterPrepare, Fault, Reply, Last, QueueInv, Numbered, Bounded, Preparing, RequestOk;
    RetryFine(b, said);
    var g := AfterPrepare(f, a.mtu, Fault(e));
    ReplacedFine(b, g, said);
    SendNextFine(b.(busy := false, requests := [g] + b.requests[1..]), said);
  }

  lemma {:induction false} ExecuteReplyReads(e: Said)
    requires IsExecute(e) && |e.pdu| == 2
    ensures Reply(e) == if Fault(e) != 0 then ErrorReply(OP_EXECUTE, Fault(e)) else [0x19]
    ensures Value(e) == []
  {
    assert [0x19] + [] == [0x19];
  }

  lemma {:induction false} ExecutingFine(a: Att, said: seq<Said>, e: Said, calls: seq<Call>)
    requires QueueInv(a) && a.busy && Fine(a, said) && forall c :: c in calls ==> CallOk(c)
    requires a.requests != [] && a.mtu >= DEFAULT_MTU && RequestOk(a.requests[0])
    requires Last(said, a.requests[0].id, false) == Some(e) && e.pdu == a.requests[0].packet
    requires IsExecute(e) && |e.pdu| == 2 && Reply(e) != []
    requires a.requests[0].longValue != [] && Executing(a.requests[0])
    ensures Fine(ReceiveResponse(Taken(a), Reply(e), calls).a, said)
  {
    var b, pdu, f := Taken(a), Reply(e), a.requests[0];
    TakenParts(a, said);
    ExecuteReplyReads(e);
    assert KnowsFragments(f, said);
    assert f.packet == [OP_EXECUTE, if f.prepareError == 0 then 1 else 0];
    var error := if f.prepareError != 0 then f.prepareError else Fault(e);
    assert TrueResult(b, error, [], said);
    hide Fine, Finish, TrueResult, Fault, Value, Last, QueueInv, Numbered, Bounded, RequestOk;
    FinishFine(b, error, [], calls, said);
    assert [0x19][1..] == [];
  }

  lemma {:induction false} ResponseFine(a: Att, said: seq<Said>, e: Said, calls: seq<Call>)
    requires QueueInv(a) && a.busy && Fine(a, said) && forall c :: c in calls ==> CallOk(c)
    requires a.requests != [] && |a.completed| < |a.accepted| && a.mtu >= DEFAULT_MTU && RequestOk(a.requests[0])
    requires Last(said, a.requests[0].id, false) == Some(e) && e.pdu == a.requests[0].packet
    requires e.pdu != [] && e.pdu[0] < 255 && Reply(e) != []
    requires a.requests[0].longValue == [] ==> a.requests[0].packet == a.accepted[|a.completed|].packet
    ensures Fine(ReceiveResponse(Taken(a), Reply(e), calls).a, said)
  {
    hide QueueInv, Fine, ReceiveResponse, Reply, Last, CallOk;
    if a.requests[0].longValue == [] {
      PlainFine(a, said, e, calls);
    } else if Preparing(a.requests[0]) {
      PreparingFine(a, said, e, calls);
    } else {
      ExecutingFine(a, said, e, calls);
    }
  }

  lemma {:induction false} ArrivesFine(a: Att, said: seq<Said>, e: Said, calls: seq<Call>)
    requires QueueInv(a) && a.busy && Fine(a, said) && forall c :: c in calls ==> CallOk(c)
    requires forall r :: r in a.requests ==> RequestOk(r)
    requires a.requests != [] && |a.completed| < |a.accepted| && a.mtu >= DEFAULT_MTU && RequestOk(a.requests[0])
    requires Last(said, a.requests[0].id, false) == Some(e) && e.pdu == a.requests[0].packet
    requires e.pdu != [] && e.pdu[0] < 255 && Reply(e) != []
    requires a.requests[0].longValue == [] ==> a.requests[0].packet == a.accepted[|a.completed|].packet
    ensures Fine(Handle(a, Reply(e), calls), said)
  {
    hide QueueInv, Numbered, Fine, ReceiveResponse, Reply, Last, CallOk, Clear, RequestOk;
    var pdu := Reply(e);
    ReceiveKeeps(a, pdu, calls);
    ResponseFine(a, said, e, calls);
    if |pdu| == 3 && ReadLe16(pdu[1..]) >= DEFAULT_MTU { AgreeFine(a, Min(a.localMtu, ReadLe16(pdu[1..])), said); }
    match Receive(a, pdu, calls) {
      case Returns(_) =>
      case Throws(b) => ClearFine(b, said);
    }
  }

  lemma {:induction false} AgreeFine(a: Att, mtu: nat, said: seq<Said>)
    requires Fine(a, said)
    ensures Fine(a.(mtu := mtu, mtuExchanged := true), said)
  {
    hide ToldTruly, IsRequest, KnowsFragments;
  }

  lemma {:induction false} ClearFine(a: Att, said: seq<Said>)
    requires Fine(a, said) && Numbered(a)
    ensures Fine(Clear(a), said)
  {
    ClearKeeps(a);
    ClearFollows(a);
    hide Fine, Follows, Numbered, QueueInv, Clear;
    FollowsFine(a, Clear(a), said);
  }

  // ----- Every run -----

  /** A local event lets requests wait, closes the link, or opens it. */
  lemma {:induction false} LocalGrows(s: System, e: Event)
    requires QueueInv(s.a) && LocalOk(e)
    ensures Grew(s.a, Apply(s.a, e)) || Apply(s.a, e) == Clear(s.a) || e.Opens?
  {
    hide Grew, Clear, QueueInv, Perform, Write, Handle, SecurityReady, CallOk;
    match e {
      case Does(call) => PerformGrowsOrCloses(s.a, call);
      case Writes(handle, value) => WriteGrows(s.a, handle, value);
      case Opens(_) =>
      case Receives(pdu, calls) => ReceivesLocally(s, pdu, calls);
      case Secures => SecuresGrows(s.a);
    }
  }

  lemma {:induction false} TruthfulParts(s: System, said: seq<Said>)
    ensures Truthful(s, said) <==> Fine(s.a, said) && InFlight(s, said)
  {
  }

  /** As long as the front request stays, so does the reply to it. */
  lemma {:induction false} SameFront(s: System, b: Att, said: seq<Said>)
    requires InFlight(s, said) && Fine(b, said) && (s.reply.Some? && b.connected ==> s.a.requests <= b.requests)
    ensures Truthful(Settle(s.(a := b)), said)
  {
    hide Replies, ToldTruly, IsRequest, KnowsFragments;
  }

  lemma {:induction false} LocalTruthful(s: System, e: Event, said: seq<Said>)
    requires Sound(s) && QueueInv(s.a) && LocalOk(e) && Truthful(s, said)
    ensures Truthful(Happen(s, Local(e)), said)
  {
    var b := Apply(s.a, e);
    ApplyKeeps(s.a, e);
    LocalGrows(s, e);
    TruthfulParts(s, said);
    hide InFlight, Fine, Truthful, Quiet, Apply, QueueInv, Numbered;
    if Grew(s.a, b) {
      GrewFollows(s.a, b);
      FollowsFine(s.a, b, said);
      SameFront(s, b, said);
    } else if b == Clear(s.a) {
      ClearFollows(s.a);
      FollowsFine(s.a, b, said);
      SameFront(s, b, said);
    } else {
      OpenFollows(s.a, e.bonded);
      FollowsFine(s.a, b, said);
      SameFront(s, b, said);
    }
  }

  lemma {:induction false} OpenFollows(a: Att, bonded: bool)
    requires QueueInv(a)
    ensures Apply(a, Opens(bonded)) == Open(a, bonded)
    ensures Follows(a, Open(a, bonded)) && Open(a, bonded).requests == a.requests
  {
  }

  lemma {:induction false} ReplyReads(a: Att, server: Server, reply: Bytes)
    requires Answering(a, server, reply)
    ensures QueueInv(a) && a.busy && a.requests != [] && a.mtu >= DEFAULT_MTU && |a.completed| < |a.accepted|
    ensures reply != [] && forall r :: r in a.requests ==> RequestOk(r)
    ensures a.requests[0].longValue == [] ==> a.requests[0].packet == a.accepted[|a.completed|].packet
  {
  }

  lemma {:induction false} ArrivesTruthful(s: System, calls: seq<Call>, said: seq<Said>)
    requires Sound(s) && QueueInv(s.a) && Truthful(s, said) && forall c :: c in calls ==> CallOk(c)
    ensures Truthful(Happen(s, Arrives(calls)), said)
  {
    TruthfulParts(s, said);
    if s.reply.Some? {
      ReplyReads(s.a, s.server, s.reply.value);
      hide QueueInv, Answering, Quiet, Fine, Handle, Truthful, Reply, Last, CallOk, RequestOk, Answer, Apply;
      var e := Last(said, s.a.requests[0].id, false).value;
      ArrivesFine(s.a, said, e, calls);
      TruthfulParts(Happen(s, Arrives(calls)), said);
    }
  }

  lemma {:induction false} StepTruthful(s: System, h: Happening, said: seq<Said>)
    requires Sound(s) && QueueInv(s.a) && HappeningOk(h) && Truthful(s, said)
    ensures Truthful(Happen(s, h), said + SaidNow(s, h))
  {
    hide Sound, QueueInv, Truthful, Settle, Handle, Apply, Answer, CallOk, LocalOk, RequestOk;
    assert said + [] == said;
    match h {
      case Local(e) => LocalTruthful(s, e, said);
      case Answers(choice) => if s.a.busy && s.reply.None? { SaidMore(s, said, choice); }
      case Arrives(calls) => ArrivesTruthful(s, calls, said);
    }
  }

  lemma {:induction false} RunTruthful(happenings: seq<Happening>)
    requires forall h :: h in happenings ==> HappeningOk(h)
    ensures Truthful(Run(happenings), SaidBy(happenings))
  {
    if happenings != [] {
      var before := happenings[..|happenings| - 1];
      RunTruthful(before);
      hide Sound, QueueInv, Truthful, Happen, HappeningOk;
      StepTruthful(Run(before), happenings[|happenings| - 1], SaidBy(before));
    }
  }

  /**
    In every run, whatever the server grants, refuses or garbles: a plain request that was answered reports exactly the
    last answer to it, seen by the server as it was asked. Its error is that answer's, 0 if and only if it was granted,
    and its value is what the answer carried, or nothing on an error. A long write that was answered reports the fault
    of its last fragment, or else the answer to its execution, which was asked for only without such a fault.
   */
  lemma {:induction false} CallersGetTheAnswer(happenings: seq<Happening>, i: nat)
    requires forall h :: h in happenings ==> HappeningOk(h)
    requires i < |Run(happenings).a.completed| <= |Run(happenings).a.accepted|
    requires Run(happenings).a.completed[i].ending == Answered && IsRequest(Run(happenings).a.accepted[i])
    ensures var asked, c := Run(happenings).a.accepted[i], Run(happenings).a.completed[i];
      var last := Last(SaidBy(happenings), i, false);
      && last.Some?
      && (asked.longValue == [] ==>
            && last.value.pdu == asked.packet
            && c.error == Fault(last.value)
            && c.value == Value(last.value)
            && (c.error == 0 <==> !last.value.choice.Refuse?))
      && (asked.longValue != [] ==>
            var fragment := Last(SaidBy(happenings), i, true);
            && fragment.Some?
            && last.value.pdu == [OP_EXECUTE, if Fault(fragment.value) == 0 then 1 else 0]
            && c.error == (if Fault(fragment.value) != 0 then Fault(fragment.value) else Fault(last.value))
            && c.value == [])
  {
    RunTruthful(happenings);
    var a := Run(happenings).a;
    assert a.completed[i].id == i;
    assert ToldTruly(a.accepted[i], a.completed[i], SaidBy(happenings));
  }
}
