/** One end of the connection: its queues change in place as the operating system takes and gives bytes. */
module PeerSocketObject {
  import opened Bits
  import opened Framing

  /** The bytes under way in one direction. */
  class Wire {
    var bytes: Bytes

    constructor ()
      ensures bytes == []
    {
      bytes := [];
    }
  }

  class PeerSocket {
    var open: bool
    var incoming: Bytes
    var outgoing: seq<Bytes>
    var sentBytes: nat

    function SendingEnd(): Sender
      reads `open, `outgoing, `sentBytes
    {
      Sender(open, outgoing, sentBytes)
    }

    function ReceivingEnd(): Receiver
      reads `open, `incoming
    {
      Receiver(open, incoming)
    }

    predicate Valid()
      reads this
    {
      SenderOk(SendingEnd()) && |incoming| <= Required(incoming)
    }

    constructor ()
      ensures Valid()
      ensures SendingEnd() == Start().sender
      ensures ReceivingEnd() == Start().receiver
    {
      open, incoming, outgoing, sentBytes := true, [], [], 0;
    }

    method Close()
      requires Valid()
      modifies this
      ensures Valid()
      ensures SendingEnd() == ClosedSender(old(SendingEnd()))
      ensures ReceivingEnd() == Receiver(false, [])
    {
      open := false;
      incoming := [];
      outgoing := [];
      sentBytes := 0;
    }

    /** The flushing loop, over what the calls of send answer. */
    method Flush(wire: Wire, answers: seq<Answer>)
      requires Valid()
      modifies this, wire
      ensures Valid()
      ensures SendingEnd() == Framing.Flush(old(SendingEnd()), old(wire.bytes), answers).0
      ensures wire.bytes == Framing.Flush(old(SendingEnd()), old(wire.bytes), answers).1
      ensures open ==> incoming == old(incoming)
    {
      var i := 0;
      assert answers[0..] == answers;
      while open && |outgoing| > 0 && i < |answers|
        invariant i <= |answers| && Valid() && (open ==> incoming == old(incoming))
        invariant Framing.Flush(SendingEnd(), wire.bytes, answers[i..]) ==
          Framing.Flush(old(SendingEnd()), old(wire.bytes), answers)
        decreases |answers| - i
      {
        var packet, answer := outgoing[0], answers[i];
        assert answers[i..][0] == answer && answers[i..][1..] == answers[i + 1..];
        i := i + 1;
        match answer {
          case Again => return;
          case Interrupted =>
          case Broken =>
            Close();
            return;
          case Count(n) =>
            if n == 0 {
              Close();
              return;
            }
            var written := if n < |packet| - sentBytes then n else |packet| - sentBytes;
            wire.bytes := wire.bytes + packet[sentBytes..sentBytes + written];
            sentBytes := sentBytes + written;
            if sentBytes != |packet| { return; }
            outgoing := outgoing[1..];
            sentBytes := 0;
        }
      }
    }

    /** The receiving loop, over what the calls of recv answer. */
    method Receive(wire: Wire, answers: seq<Answer>) returns (result: Received)
      requires Valid()
      modifies this, wire
      ensures Valid()
      ensures ReceivingEnd() == Framing.Receive(old(ReceivingEnd()), old(wire.bytes), answers).0
      ensures wire.bytes == Framing.Receive(old(ReceivingEnd()), old(wire.bytes), answers).1
      ensures result == Framing.Receive(old(ReceivingEnd()), old(wire.bytes), answers).2
      ensures open ==> SendingEnd() == old(SendingEnd())
    {
      var i := 0;
      assert answers[0..] == answers;
      while open
        invariant i <= |answers| && Valid() && (open ==> SendingEnd() == old(SendingEnd()))
        invariant Framing.Receive(ReceivingEnd(), wire.bytes, answers[i..]) ==
          Framing.Receive(old(ReceivingEnd()), old(wire.bytes), answers)
        decreases |answers| - i
      {
        var required := Required(incoming);
        if !LengthOk(required) {
          Close();
          return Nothing;
        }
        if |incoming| == required && required != 2 {
          result := Message(incoming[2..]);
          incoming := [];
          return;
        }
        if i == |answers| { return Nothing; }
        assert answers[i..][0] == answers[i] && answers[i..][1..] == answers[i + 1..];
        match answers[i] {
          case Again => return Nothing;
          case Interrupted =>
          case Broken =>
            Close();
            return Nothing;
          case Count(n) =>
            var count := Least(n, required - |incoming|, |wire.bytes|);
            if count == 0 {
              Close();
              return Nothing;
            }
            incoming := incoming + wire.bytes[..count];
            wire.bytes := wire.bytes[count..];
        }
        i := i + 1;
      }
      return Nothing;
    }

    /** A message is queued and flushed; a full queue closes the connection. */
    method Send(wire: Wire, body: Bytes, answers: seq<Answer>)
      requires Valid() && BodyOk(body)
      modifies this, wire
      ensures Valid()
      ensures !old(open) ==> SendingEnd() == old(SendingEnd()) && wire.bytes == old(wire.bytes)
      ensures old(open) && |old(outgoing)| == MAX_QUEUED ==>
        SendingEnd() == ClosedSender(old(SendingEnd())) && wire.bytes == old(wire.bytes)
      ensures old(open) && |old(outgoing)| < MAX_QUEUED ==>
                var queued := old(SendingEnd()).(outgoing := old(outgoing) + [Frame(body)]);
                SenderOk(queued) && SendingEnd() == Framing.Flush(queued, old(wire.bytes), answers).0
                && wire.bytes == Framing.Flush(queued, old(wire.bytes), answers).1
    {
      if !open { return; }
      if |outgoing| == MAX_QUEUED {
        Close();
        return;
      }
      outgoing := outgoing + [Frame(body)];
      Flush(wire, answers);
    }
  }
}
