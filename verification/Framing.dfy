/**
  Length-prefixed messages over a byte stream that takes and gives as many bytes at a time as it likes, and that may
  fail at any time.
 */
module Framing {
  import opened Bits

  const MAX_MESSAGE: nat := 1033
  const MIN_MESSAGE: nat := 9
  const MAX_QUEUED: nat := 64

  /** A message: its kind, its generation, its payload, as the packet body that follows the length. */
  predicate BodyOk(body: Bytes) {
    MIN_MESSAGE <= |body| <= MAX_MESSAGE
  }

  function Frame(body: Bytes): Bytes
    requires BodyOk(body)
  {
    Le16(|body|) + body
  }

  predicate BodiesOk(bodies: seq<Bytes>) {
    forall i :: 0 <= i < |bodies| ==> BodyOk(bodies[i])
  }

  function Stream(bodies: seq<Bytes>): Bytes
    requires BodiesOk(bodies)
  {
    if bodies == [] then [] else Frame(bodies[0]) + Stream(bodies[1..])
  }

  lemma {:induction false} StreamAppends(a: seq<Bytes>, b: seq<Bytes>)
    requires BodiesOk(a) && BodiesOk(b)
    ensures BodiesOk(a + b) && Stream(a + b) == Stream(a) + Stream(b)
  {
    if a == [] {
      assert a + b == b;
    } else {
      StreamAppends(a[1..], b);
      assert (a + b)[1..] == a[1..] + b && (a + b)[0] == a[0];
      assert Frame(a[0]) + (Stream(a[1..]) + Stream(b)) == Frame(a[0]) + Stream(a[1..]) + Stream(b);
    }
  }

  lemma {:induction false} StreamOne(body: Bytes)
    requires BodyOk(body)
    ensures BodiesOk([body]) && Stream([body]) == Frame(body)
  {
    assert [body][1..] == [];
    assert Frame(body) + [] == Frame(body);
  }

  // ----- The two ends and the bytes between them -----

  /** The sending end: open or closed, the frames waiting, and how much of the first has gone. */
  datatype Sender = Sender(open: bool, outgoing: seq<Bytes>, sentBytes: nat)

  /** The receiving end: what has arrived of the message it is reading. */
  datatype Receiver = Receiver(open: bool, incoming: Bytes)

  /** `accepted` and `delivered` are the messages taken for sending and those given to the reader. */
  datatype System = System(sender: Sender, receiver: Receiver, channel: Bytes, accepted: seq<Bytes>,
    delivered: seq<Bytes>)

  /** What the operating system makes of one call: so many bytes, not now, an interruption, or an error. */
  datatype Answer = Count(n: nat) | Again | Interrupted | Broken

  function ClosedSender(s: Sender): Sender {
    Sender(false, [], 0)
  }

  /** So many bytes of the first packet have gone; a packet that is complete leaves the queue. */
  function AfterSending(s: Sender, taken: nat): Sender
    requires s.outgoing != [] && s.sentBytes + taken <= |s.outgoing[0]|
  {
    if s.sentBytes + taken < |s.outgoing[0]| then s.(sentBytes := s.sentBytes + taken)
    else s.(outgoing := s.outgoing[1..], sentBytes := 0)
  }

  /** One call of send; the result says whether flushing goes on. */
  function SendOnce(s: Sender, channel: Bytes, answer: Answer): (Sender, Bytes, bool)
    requires s.open && s.outgoing != [] && s.sentBytes <= |s.outgoing[0]|
  {
    var packet := s.outgoing[0];
    match answer
    case Again => (s, channel, false)
    case Interrupted => (s, channel, true)
    case Broken => (ClosedSender(s), channel, false)
    case Count(n) =>
      if n == 0 then (ClosedSender(s), channel, false)
      else
        var taken := if n < |packet| - s.sentBytes then n else |packet| - s.sentBytes;
        (AfterSending(s, taken), channel + packet[s.sentBytes..s.sentBytes + taken], s.sentBytes + taken == |packet|)
  }

  /** Flushing, while the calls have answers; it stops at the first that would block. */
  function Flush(s: Sender, channel: Bytes, answers: seq<Answer>): (Sender, Bytes)
    requires SenderOk(s)
    decreases |answers|
  {
    if !s.open || s.outgoing == [] || answers == [] then (s, channel)
    else
      var (next, more, again) := SendOnce(s, channel, answers[0]);
      if again then Flush(next, more, answers[1..]) else (next, more)
  }

  predicate SenderOk(s: Sender) {
    && (s.outgoing == [] ==> s.sentBytes == 0)
    && (s.outgoing != [] ==> s.sentBytes < |s.outgoing[0]|)
    && (forall i :: 0 <= i < |s.outgoing| ==> |s.outgoing[i]| > 0)
    && (!s.open ==> s.outgoing == [])
    && |s.outgoing| <= MAX_QUEUED
  }

  /** The bytes wanted next: the length first, then exactly the rest of its message. */
  function Required(incoming: Bytes): nat {
    if |incoming| < 2 then 2 else 2 + ReadLe16(incoming)
  }

  predicate LengthOk(required: nat) {
    && required <= MAX_MESSAGE + 2
    && (required == 2 || required >= MIN_MESSAGE + 2)
  }

  /** What receiving comes to: a message, nothing yet, or the end of the connection. */
  datatype Received = Message(body: Bytes) | Nothing

  /** Receiving, while the calls have answers; a call gives no more bytes than it is asked for and than there are. */
  function Receive(r: Receiver, channel: Bytes, answers: seq<Answer>): (Receiver, Bytes, Received)
    requires |r.incoming| <= Required(r.incoming)
    decreases |answers|
  {
    if !r.open then (r, channel, Nothing)
    else
      var required := Required(r.incoming);
      if !LengthOk(required) then (Receiver(false, []), channel, Nothing)
      else if |r.incoming| == required && required != 2 then (Receiver(true, []), channel, Message(r.incoming[2..]))
      else if answers == [] then (r, channel, Nothing)
      else
        match answers[0]
        case Again => (r, channel, Nothing)
        case Interrupted => Receive(r, channel, answers[1..])
        case Broken => (Receiver(false, []), channel, Nothing)
        case Count(n) =>
          var asked := required - |r.incoming|;
          var got := Least(n, asked, |channel|);
          if got == 0 then (Receiver(false, []), channel, Nothing)
          else Receive(r.(incoming := r.incoming + channel[..got]), channel[got..], answers[1..])
  }

  function Least(a: nat, b: nat, c: nat): (r: nat)
    ensures r <= a && r <= b && r <= c
  {
    if a <= b && a <= c then a else if b <= c then b else c
  }

  // ----- Runs -----

  /** Any message may be sent, any end polled, with any answers, and any end closed, at any time. */
  datatype Action = Sending(body: Bytes,
    answers: seq<Answer>) | Flushing(calls: seq<Answer>) | Receiving(polls: seq<Answer>) | CloseSender | CloseReceiver

  predicate Possible(a: Action) {
    a.Sending? ==> BodyOk(a.body)
  }

  function Step(s: System, a: Action): System
    requires Possible(a) && SenderOk(s.sender) && |s.receiver.incoming| <= Required(s.receiver.incoming)
  {
    match a
    case Sending(body, answers) =>
      if !s.sender.open then s
      else if |s.sender.outgoing| == MAX_QUEUED then s.(sender := ClosedSender(s.sender))
      else
        var queued := s.sender.(outgoing := s.sender.outgoing + [Frame(body)]);
        var (sender, channel) := Flush(queued, s.channel, answers);
        s.(sender := sender, channel := channel, accepted := s.accepted + [body])
    case Flushing(calls) =>
      var (sender, channel) := Flush(s.sender, s.channel, calls);
      s.(sender := sender, channel := channel)
    case Receiving(polls) =>
      var (receiver, channel, result) := Receive(s.receiver, s.channel, polls);
      s.(receiver := receiver, channel := channel,
        delivered := s.delivered + if result.Message? then [result.body] else [])
    case CloseSender => s.(sender := ClosedSender(s.sender))
    case CloseReceiver => s.(receiver := Receiver(false, []))
  }

  ghost predicate Run(s: System, actions: seq<Action>, t: System)
    decreases |actions|
  {
    if actions == [] then s == t
    else
      && Possible(actions[0])
      && SenderOk(s.sender)
      && |s.receiver.incoming| <= Required(s.receiver.incoming)
      && Run(Step(s, actions[0]), actions[1..], t)
  }

  function Start(): System {
    System(Sender(true, [], 0), Receiver(true, []), [], [], [])
  }
}
