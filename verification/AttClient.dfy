/** The ATT half of VirtualPeer as the object it is: a request deque whose front packet is rewritten in place. */
module AttClientObject {
  import opened Bits
  import opened AttQueue
  import Safety = AttSafety

  class AttClient {
    var connected: bool
    var requests: seq<Request>
    var busy: bool
    var securityPending: bool
    var security: Security
    var mtu: nat
    var localMtu: nat
    var mtuExchanged: bool
    ghost var accepted: seq<Asked>
    ghost var outstanding: int
    ghost var sent: seq<nat>
    ghost var completed: seq<Completion>
    var nextId: nat

    ghost function View(): Att
      reads this
    {
      Att(connected, requests, busy, securityPending, security, mtu, localMtu, mtuExchanged, accepted, outstanding,
        sent, completed)
    }

    ghost predicate Valid()
      reads this
    {
      Safety.QueueInv(View()) && nextId == |accepted|
    }

    constructor ()
      ensures Valid() && View() == Safety.Start()
    {
      connected, requests, busy, securityPending, security := false, [], false, false, Idle;
      mtu, localMtu, mtuExchanged := DEFAULT_MTU, DEFAULT_MTU, false;
      accepted, outstanding, sent, completed := [], 0, [], [];
      nextId := 0;
    }

    method TransmitNext()
      modifies `busy, `outstanding, `sent
      ensures View() == SendNext(old(View()))
    {
      if busy || securityPending || requests == [] || !connected { return; }
      busy := true;
      outstanding := outstanding + 1;
      sent := sent + [requests[0].id];
    }

    method Submit(kind: Kind, packet: Bytes, longValue: Bytes) returns (ok: bool)
      requires Valid() && packet != [] && packet[0] % 2 == 0 && packet[0] != OP_PREPARE && packet[0] != OP_EXECUTE
      requires longValue != [] ==> |packet| == 3 && kind == Plain && |longValue| <= MAX_VALUE
      requires kind.Mtu? ==> DEFAULT_MTU <= kind.maximum <= MAX_MTU && packet[0] == OP_MTU_REQUEST
      modifies this
      ensures Valid()
      ensures (View(), ok) == Enqueue(old(View()), kind, packet, longValue)
    {
      Safety.EnqueueKeeps(View(), kind, packet, longValue);
      if !connected || |requests| >= MAX_PENDING { return false; }
      var pending := Request(nextId, kind, packet, longValue, 0);
      if longValue != [] { pending := PrepareAt(pending, mtu, 0); }
      requests := requests + [pending];
      accepted := accepted + [Asked(packet, longValue)];
      nextId := nextId + 1;
      TransmitNext();
      return true;
    }

    method Exchange(maximum: nat) returns (ok: bool)
      requires Valid() && DEFAULT_MTU <= maximum <= MAX_MTU
      modifies this
      ensures Valid() && (View(), ok) == ExchangeMtu(old(View()), maximum)
    {
      if mtuExchanged { return true; }
      localMtu := maximum;
      ok := Submit(Mtu(maximum), [OP_MTU_REQUEST] + Le16(maximum), []);
    }

    method WriteValue(handle: nat, value: Bytes) returns (ok: bool)
      requires Valid() && handle < 0x10000
      modifies this
      ensures Valid() && (View(), ok) == Write(old(View()), handle, value)
    {
      if |value| > MAX_VALUE { return false; }
      if |value| > mtu - 3 {
        ok := Submit(Plain, [OP_WRITE] + Le16(handle), value);
        return;
      }
      ok := Submit(Plain, [OP_WRITE] + Le16(handle) + value, []);
    }

    /** Tells the callers of requests that the link is lost, first to last. */
    method CompleteLost(pending: seq<Request>)
      modifies `completed
      ensures completed == old(completed) + LostCompletions(pending)
    {
      for i := 0 to |pending|
        invariant completed == old(completed) + LostCompletions(pending)[..i]
      {
        completed := completed + [Completion(pending[i].id, LINK_CLOSED, [], LinkLost, true)];
        assert LostCompletions(pending)[..i + 1] == LostCompletions(pending)[..i] + [LostCompletions(pending)[i]];
      }
    }

    /** Loses the link: every queued request is completed. */
    method ClearTheLink()
      requires Safety.Numbered(View()) && nextId == |accepted|
      modifies this
      ensures Valid() && View() == Clear(old(View()))
    {
      Safety.ClearKeeps(View());
      connected := false;
      mtu, localMtu, mtuExchanged := DEFAULT_MTU, DEFAULT_MTU, false;
      busy, securityPending, security, outstanding := false, false, Idle, 0;
      var pending := requests;
      requests := [];
      CompleteLost(pending);
    }

    /** What a completion callback does before it returns. */
    method RunCallback(calls: seq<Call>)
      requires Valid() && forall c :: c in calls ==> CallOk(c)
      modifies this
      ensures Valid() && View() == Reentrant(old(View()), calls)
    {
      for i := 0 to |calls|
        invariant Valid() && mtu >= DEFAULT_MTU
        invariant Reentrant(View(), calls[i..]) == Reentrant(old(View()), calls)
      {
        assert calls[i..][0] == calls[i] && calls[i..][1..] == calls[i + 1..];
        Safety.PerformKeeps(View(), calls[i]);
        match calls[i] {
          case Issue(packet, longValue) =>
            var _ := Submit(Plain, packet, longValue);
          case Exchange(maximum) =>
            var _ := Exchange(maximum);
          case Teardown =>
            ClearTheLink();
        }
      }
    }

    /** Takes the front request off the queue as completed. */
    method PopFront(error: Byte, value: Bytes, told: bool)
      requires requests != []
      modifies `requests, `busy, `completed
      ensures View() == Safety.Popped(old(View()), error, value, told)
    {
      var front := requests[0];
      requests := requests[1..];
      busy := false;
      completed := completed + [Completion(front.id, error, value, Answered, told)];
    }

    method AgreeMtu(agreed: nat)
      modifies `mtu, `mtuExchanged
      ensures View() == old(View()).(mtu := agreed, mtuExchanged := true)
    {
      mtu := agreed;
      mtuExchanged := true;
    }

    /** After a completion: what its callback does, then the next request. */
    method GoOn(calls: seq<Call>)
      requires Valid() && forall c :: c in calls ==> CallOk(c)
      modifies this
      ensures Valid() && View() == SendNext(Reentrant(old(View()), calls))
    {
      hide Safety.Numbered, Safety.Paced;
      RunCallback(calls);
      Safety.SendNextKeeps(View());
      TransmitNext();
    }

    /** Completes the front request; true if its callback threw. */
    method FinishFront(error: Byte, value: Bytes, calls: seq<Call>) returns (threw: bool)
      requires Safety.Numbered(View()) && Safety.Bounded(View()) && requests != [] && connected
      requires !securityPending && outstanding == 0
      requires nextId == |accepted| && forall c :: c in calls ==> CallOk(c)
      requires RequestOk(requests[0])
      modifies this
      ensures Safety.Numbered(View())
      ensures nextId == |accepted|
      ensures (!threw ==> Valid())
      ensures Finish(old(View()), error, value, calls) == if threw then Throws(View()) else Returns(View())
    {
      hide Safety.Numbered, Safety.Paced, Reentrant, SendNext;
      ghost var was := View();
      Safety.FinishKeeps(was, error, value, calls);
      var front := requests[0];
      var exchange := front.kind.Mtu? && error == 0;
      var told := !exchange || MtuResponseOk(value);
      Safety.PoppedKeeps(was, error, value, told);
      PopFront(error, value, told);
      if !told { return true; }
      if exchange {
        var agreed := Min(if mtuExchanged then mtu else front.kind.maximum, ReadLe16(value));
        Safety.AgreeKeeps(View(), agreed);
        AgreeMtu(agreed);
      }
      GoOn(calls);
      return false;
    }

    /** One PDU from the link; true if a check failed and the link must be closed. */
    method ReceiveAtt(pdu: Bytes, calls: seq<Call>) returns (threw: bool)
      requires Valid() && forall c :: c in calls ==> CallOk(c)
      modifies this
      ensures Safety.Numbered(View())
      ensures nextId == |accepted|
      ensures (!threw ==> Valid())
      ensures Receive(old(View()), pdu, calls) == if threw then Throws(View()) else Returns(View())
    {
      ghost var was := View();
      Safety.ReceiveKeeps(was, pdu, calls);
      if pdu == [] || |pdu| > mtu { return true; }
      var opcode := pdu[0];
      if opcode == OP_NOTIFY || opcode == OP_INDICATE { return |pdu| < 3; }
      if opcode == OP_MTU_REQUEST {
        if |pdu| != 3 || ReadLe16(pdu[1..]) < DEFAULT_MTU { return true; }
        mtu := Min(localMtu, ReadLe16(pdu[1..]));
        mtuExchanged := true;
        return false;
      }
      if opcode % 2 == 0 { return false; }
      if !busy || requests == [] { return true; }
      outstanding := outstanding - 1;
      Safety.NumberedIgnoresPace(was);
      assert RequestOk(requests[0]);
      threw := TakeResponse(pdu, calls);
    }

    /** The request waits for encryption and is sent again then. */
    method AwaitEncryption()
      modifies `busy, `securityPending, `security
      ensures View() == old(View()).(busy := false, securityPending := true, security := Working)
    {
      busy := false;
      securityPending := true;
      security := Working;
    }

    /** The transaction stays at the front, so later writes cannot interleave with it. */
    method Prepare(error: Byte)
      requires mtu >= DEFAULT_MTU && requests != [] && Preparing(requests[0]) && |requests[0].longValue| <= MAX_VALUE
      modifies `requests, `busy, `outstanding, `sent
      ensures var was := old(View());
              View() == SendNext(was.(busy := false,
                requests := [AfterPrepare(was.requests[0], was.mtu, error)] + was.requests[1..]))
    {
      requests := [AfterPrepare(requests[0], mtu, error)] + requests[1..];
      busy := false;
      TransmitNext();
    }

    method TakeResponse(pdu: Bytes, calls: seq<Call>) returns (threw: bool)
      requires Safety.Numbered(View()) && Safety.Bounded(View()) && requests != [] && connected
      requires !securityPending && busy && outstanding == 0
      requires nextId == |accepted| && RequestOk(requests[0]) && pdu != [] && forall c :: c in calls ==> CallOk(c)
      modifies this
      ensures Safety.Numbered(View())
      ensures nextId == |accepted|
      ensures (!threw ==> Valid())
      ensures ReceiveResponse(old(View()), pdu, calls) == if threw then Throws(View()) else Returns(View())
    {
      assert mtu >= DEFAULT_MTU;
      hide Safety.QueueInv, Safety.Numbered, Safety.Bounded, Finish, SendNext;
      ghost var was := View();
      Safety.ReceiveResponseKeeps(was, pdu, calls);
      var front := requests[0];
      var asked := front.packet[0];
      var error: Byte := 0;
      if pdu[0] == OP_ERROR {
        if |pdu| != 5 || pdu[1] != asked || pdu[4] == 0 { return true; }
        error := pdu[4];
        if (error == 0x05 || error == 0x0F) && !security.Encrypted? && asked != OP_EXECUTE {
          AwaitEncryption();
          return false;
        }
      } else if pdu[0] as int != asked + 1 {
        return true;
      }

      if asked == OP_PREPARE {
        if error == 0 && pdu[1..] != front.packet[1..] { error := BAD_ECHO; }
        Prepare(error);
        return false;
      }
      if asked == OP_EXECUTE {
        if error == 0 && |pdu| != 1 { return true; }
        if front.prepareError != 0 {
          if error != 0 { return true; }
          threw := FinishFront(front.prepareError, [], calls);
          return;
        }
      }
      threw := FinishFront(error, if error != 0 then [] else pdu[1..], calls);
    }

    method EncryptionReady()
      requires Valid()
      modifies this
      ensures Valid() && View() == SecurityReady(old(View()))
    {
      Safety.ApplyKeeps(View(), Safety.Secures);
      if security != Working { return; }
      security := Encrypted;
      securityPending := false;
      TransmitNext();
    }
  }
}
