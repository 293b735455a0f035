/**
  Framing is transparent: whatever the chunks, the reader gets a prefix of the messages sent, unaltered and in order.
 */
module FramingSafety {
  import opened Bits
  import opened Framing

  // ----- Frames can be told apart -----

  lemma {:induction false} FrameStarts(body: Bytes, rest: Bytes)
    requires BodyOk(body)
    ensures var s := Frame(body) + rest;
      |s| == |body| + 2 + |rest| && Required(s) == 2 + |body| && s[2..2 + |body|] == body && s[2 + |body|..] == rest
  {
    var s := Frame(body) + rest;
    assert s[0] == |body| % 256 && s[1] == |body| / 256;
  }

  lemma {:induction false} FramesAlike(x: Bytes, p: Bytes, y: Bytes, q: Bytes)
    requires BodyOk(x) && BodyOk(y) && Frame(x) + p == Frame(y) + q
    ensures x == y && p == q
  {
    FrameStarts(x, p);
    FrameStarts(y, q);
  }

  lemma {:induction false} StreamHead(a: seq<Bytes>)
    requires BodiesOk(a)
    ensures if a == [] then Stream(a) == []
      else BodyOk(a[0]) && BodiesOk(a[1..]) && Stream(a) == Frame(a[0]) + Stream(a[1..])
  {
  }

  lemma {:induction false} FrameNotEmpty(x: Bytes)
    requires BodyOk(x)
    ensures |Frame(x)| > 0
  {
  }

  lemma {:induction false} SameFirstMessage(d: seq<Bytes>, a: seq<Bytes>)
    requires BodiesOk(d) && BodiesOk(a) && d != [] && Stream(d) <= Stream(a)
    ensures a != []
    ensures d[0] == a[0]
    ensures BodiesOk(d[1..])
    ensures BodiesOk(a[1..])
    ensures Stream(d[1..]) <= Stream(a[1..])
  {
    hide *;
    StreamHead(d);
    StreamHead(a);
    FrameNotEmpty(d[0]);
    var rest := Stream(a)[|Stream(d)|..];
    assert Stream(a) == Stream(d) + rest;
    assert Frame(d[0]) + Stream(d[1..]) + rest == Frame(d[0]) + (Stream(d[1..]) + rest);
    FramesAlike(d[0], Stream(d[1..]) + rest, a[0], Stream(a[1..]));
  }

  /** If the bytes of some messages begin the bytes of others, those messages begin the others. */
  lemma {:induction false} StreamsTellMessages(d: seq<Bytes>, a: seq<Bytes>)
    requires BodiesOk(d) && BodiesOk(a) && Stream(d) <= Stream(a)
    ensures d <= a
  {
    if d != [] {
      hide Stream;
      SameFirstMessage(d, a);
      StreamsTellMessages(d[1..], a[1..]);
      assert d == [d[0]] + d[1..] && a == [a[0]] + a[1..];
    }
  }

  lemma {:induction false} StreamsEqual(d: seq<Bytes>, a: seq<Bytes>)
    requires BodiesOk(d) && BodiesOk(a) && Stream(d) == Stream(a)
    ensures d == a
  {
    StreamsTellMessages(d, a);
    StreamsTellMessages(a, d);
  }

  // ----- The sending end -----

  function Concat(packets: seq<Bytes>): Bytes {
    if packets == [] then [] else packets[0] + Concat(packets[1..])
  }

  /** What has still to be sent. */
  function Unsent(s: Sender): Bytes
    requires SenderOk(s)
  {
    if s.outgoing == [] then [] else s.outgoing[0][s.sentBytes..] + Concat(s.outgoing[1..])
  }

  lemma {:induction false} ConcatAppends(packets: seq<Bytes>, p: Bytes)
    ensures Concat(packets + [p]) == Concat(packets) + p
  {
    if packets == [] {
      assert packets + [p] == [p] && [p][1..] == [] && p + [] == p && [] + p == p;
    } else {
      ConcatAppends(packets[1..], p);
      assert (packets + [p])[1..] == packets[1..] + [p];
      assert packets[0] + (Concat(packets[1..]) + p) == packets[0] + Concat(packets[1..]) + p;
    }
  }

  lemma {:induction false} UnsentIs(s: Sender)
    requires SenderOk(s)
    ensures s.outgoing == [] ==> Unsent(s) == []
    ensures s.outgoing != [] ==>
      s.sentBytes < |s.outgoing[0]| && Unsent(s) == s.outgoing[0][s.sentBytes..] + Concat(s.outgoing[1..])
  {
    hide Concat;
  }

  lemma {:induction false} Regroup(channel: Bytes, a: Bytes, b: Bytes, rest: Bytes)
    ensures channel + a + (b + rest) == channel + (a + b + rest)
  {
  }

  lemma {:induction false} SliceSplits(packet: Bytes, i: nat, j: nat)
    requires i <= j <= |packet|
    ensures packet[i..] == packet[i..j] + packet[j..]
  {
  }

  lemma {:induction false} PartSent(s: Sender, taken: nat)
    requires SenderOk(s) && s.open && s.outgoing != [] && s.sentBytes + taken < |s.outgoing[0]|
    ensures SenderOk(s.(sentBytes := s.sentBytes + taken))
  {
  }

  /** Part of the first packet has gone. */
  lemma {:induction false} SentPart(s: Sender, channel: Bytes, taken: nat)
    requires SenderOk(s) && s.open && s.outgoing != [] && s.sentBytes + taken < |s.outgoing[0]|
    ensures var packet, t := s.outgoing[0], s.(sentBytes := s.sentBytes + taken);
      SenderOk(t) && channel + packet[s.sentBytes..s.sentBytes + taken] + Unsent(t) == channel + Unsent(s)
  {
    hide Concat, Unsent, SenderOk;
    var packet, t := s.outgoing[0], s.(sentBytes := s.sentBytes + taken);
    PartSent(s, taken);
    UnsentIs(s);
    UnsentIs(t);
    SliceSplits(packet, s.sentBytes, s.sentBytes + taken);
    Regroup(channel, packet[s.sentBytes..s.sentBytes + taken], packet[s.sentBytes + taken..], Concat(s.outgoing[1..]));
  }

  /** The rest of the first packet has gone. */
  lemma {:induction false} SentAll(s: Sender, channel: Bytes)
    requires SenderOk(s) && s.open && s.outgoing != []
    ensures var packet, t := s.outgoing[0], s.(outgoing := s.outgoing[1..], sentBytes := 0);
      SenderOk(t) && channel + packet[s.sentBytes..] + Unsent(t) == channel + Unsent(s)
  {
    NextPacket(s);
    UnsentIs(s);
    hide Concat, Unsent, SenderOk;
    var left, rest := s.outgoing[0][s.sentBytes..], Concat(s.outgoing[1..]);
    assert channel + left + rest == channel + (left + rest);
  }

  lemma {:induction false} ClosedHasNothing(s: Sender, channel: Bytes)
    requires SenderOk(s)
    ensures SenderOk(ClosedSender(s))
    ensures !ClosedSender(s).open
    ensures channel + Unsent(ClosedSender(s)) <= channel + Unsent(s)
  {
    assert channel + [] == channel;
  }

  lemma {:induction false} SendingConserves(s: Sender, channel: Bytes, taken: nat)
    requires SenderOk(s) && s.open && s.outgoing != [] && s.sentBytes + taken <= |s.outgoing[0]|
    ensures var t := AfterSending(s, taken);
      SenderOk(t) && t.open
        && channel + s.outgoing[0][s.sentBytes..s.sentBytes + taken] + Unsent(t) == channel + Unsent(s)
  {
    hide Unsent, SenderOk, Concat;
    if s.sentBytes + taken < |s.outgoing[0]| {
      SentPart(s, channel, taken);
    } else {
      SentAll(s, channel);
      assert s.outgoing[0][s.sentBytes..|s.outgoing[0]|] == s.outgoing[0][s.sentBytes..];
    }
  }

  /** Bytes go from the queue to the channel, none lost while the end is open. */
  lemma {:induction false} SendOnceConserves(s: Sender, channel: Bytes, answer: Answer)
    requires SenderOk(s) && s.open && s.outgoing != []
    ensures var (t, more, _) := SendOnce(s, channel, answer);
      && SenderOk(t)
      && (t.open ==> more + Unsent(t) == channel + Unsent(s))
      && more + Unsent(t) <= channel + Unsent(s)
  {
    hide Unsent, SenderOk, Concat, ClosedSender, AfterSending;
    SentLess(s);
    ClosedHasNothing(s, channel);
    var left := |s.outgoing[0]| - s.sentBytes;
    if answer.Count? && answer.n > 0 {
      SendingConserves(s, channel, if answer.n < left then answer.n else left);
    }
  }

  lemma {:induction false} SentLess(s: Sender)
    requires SenderOk(s) && s.outgoing != []
    ensures s.sentBytes < |s.outgoing[0]|
  {
  }

  lemma {:induction false} NextPacket(s: Sender)
    requires SenderOk(s) && s.open && s.outgoing != []
    ensures var t := s.(outgoing := s.outgoing[1..], sentBytes := 0);
      SenderOk(t) && Unsent(t) == Concat(s.outgoing[1..])
  {
  }

  lemma {:induction false} FlushConserves(s: Sender, channel: Bytes, answers: seq<Answer>)
    requires SenderOk(s)
    ensures var (t, more) := Flush(s, channel, answers);
      && SenderOk(t)
      && (t.open ==> s.open && more + Unsent(t) == channel + Unsent(s))
      && more + Unsent(t) <= channel + Unsent(s)
    decreases |answers|
  {
    if s.open && s.outgoing != [] && answers != [] {
      hide SendOnce, Unsent, SenderOk;
      SendOnceConserves(s, channel, answers[0]);
      var (next, more, again) := SendOnce(s, channel, answers[0]);
      if again { FlushConserves(next, more, answers[1..]); }
    }
  }

  // ----- The receiving end -----

  /** Bytes go from the channel to the reader, and never more than the message being read still needs. */
  lemma {:induction false} ReceiveConserves(r: Receiver, channel: Bytes, answers: seq<Answer>)
    requires |r.incoming| <= Required(r.incoming)
    ensures var (t, rest, result) := Receive(r, channel, answers);
      && |t.incoming| <= Required(t.incoming)
      && (t.open ==>
           r.open && r.incoming + channel ==
           (match result case Message(body) => (if BodyOk(body) then Frame(body) else []) case Nothing => t.incoming)
           + rest)
      && (result.Message? ==> t.open && t.incoming == [] && BodyOk(result.body))
    decreases |answers|
  {
    var required := Required(r.incoming);
    if r.open && LengthOk(required) {
      if |r.incoming| == required && required != 2 {
        Complete(r.incoming);
      } else if answers != [] {
        match answers[0] {
          case Interrupted => ReceiveConserves(r, channel, answers[1..]);
          case Count(n) =>
            var got := Least(n, required - |r.incoming|, |channel|);
            if got > 0 {
              var more := r.incoming + channel[..got];
              StillRequired(r.incoming, channel[..got]);
              ReceiveConserves(r.(incoming := more), channel[got..], answers[1..]);
              assert more + channel[got..] == r.incoming + channel;
            }
          case _ =>
        }
      }
    }
  }

  lemma {:induction false} StillRequired(incoming: Bytes, more: Bytes)
    requires |incoming| + |more| <= Required(incoming)
    ensures |incoming + more| <= Required(incoming + more)
  {
  }

  /** A complete buffer is the frame of its message. */
  lemma {:induction false} Complete(incoming: Bytes)
    requires |incoming| == Required(incoming) && LengthOk(Required(incoming)) && Required(incoming) != 2
    ensures BodyOk(incoming[2..]) && Frame(incoming[2..]) == incoming
  {
    var n := incoming[0] as int + 256 * incoming[1] as int;
    assert n % 256 == incoming[0] && n / 256 == incoming[1];
  }

  // ----- Runs -----

  /** While the reader is open, every byte is accounted for, up to what a closed sender has thrown away. */
  ghost predicate Inv(s: System) {
    && SenderOk(s.sender)
    && BodiesOk(s.accepted)
    && BodiesOk(s.delivered)
    && |s.receiver.incoming| <= Required(s.receiver.incoming)
    && s.delivered <= s.accepted
    && (s.receiver.open ==>
         Stream(s.delivered) + (s.receiver.incoming + s.channel + Unsent(s.sender)) <= Stream(s.accepted))
    && (s.receiver.open && s.sender.open ==>
         Stream(s.delivered) + (s.receiver.incoming + s.channel + Unsent(s.sender)) == Stream(s.accepted))
  }

  lemma {:induction false} PrefixInside(a: Bytes, b: Bytes, c: Bytes, d: Bytes, whole: Bytes)
    requires a + (b + c) <= whole && d <= c
    ensures a + (b + d) <= whole
  {
    assert a + (b + c) == a + (b + d) + c[|d|..];
  }

  lemma {:induction false} FlushingKeeps(s: System, sender: Sender, answers: seq<Answer>)
    requires SenderOk(sender) && Inv(s.(sender := sender))
    ensures var (t, channel) := Flush(sender, s.channel, answers); Inv(s.(sender := t, channel := channel))
  {
    FlushConserves(sender, s.channel, answers);
    var (t, channel) := Flush(sender, s.channel, answers);
    var d, i := Stream(s.delivered), s.receiver.incoming;
    assert i + s.channel + Unsent(sender) == i + (s.channel + Unsent(sender))
      && i + channel + Unsent(t) == i + (channel + Unsent(t));
    hide Flush, Unsent, Stream, BodiesOk, SenderOk;
    if s.receiver.open { PrefixInside(d, i, s.channel + Unsent(sender), channel + Unsent(t), Stream(s.accepted)); }
  }

  lemma {:induction false} QueueingKeeps(s: System, body: Bytes)
    requires Inv(s) && BodyOk(body) && s.sender.open && |s.sender.outgoing| < MAX_QUEUED
    ensures var queued := s.sender.(outgoing := s.sender.outgoing + [Frame(body)]);
      SenderOk(queued) && Inv(s.(sender := queued, accepted := s.accepted + [body]))
  {
    var queued := s.sender.(outgoing := s.sender.outgoing + [Frame(body)]);
    StreamOne(body);
    StreamAppends(s.accepted, [body]);
    UnsentGrows(s.sender, Frame(body));
    var d, i, u := Stream(s.delivered), s.receiver.incoming + s.channel, Unsent(s.sender);
    assert d + (i + (u + Frame(body))) == d + (i + u) + Frame(body);
    hide Unsent, Stream, SenderOk;
  }

  lemma {:induction false} UnsentGrows(s: Sender, p: Bytes)
    requires SenderOk(s) && |p| > 0 && s.open && |s.outgoing| < MAX_QUEUED
    ensures var t := s.(outgoing := s.outgoing + [p]); SenderOk(t) && Unsent(t) == Unsent(s) + p
  {
    var t := s.(outgoing := s.outgoing + [p]);
    if s.outgoing == [] {
      assert t.outgoing == [p] && [p][1..] == [] && p[0..] == p;
      assert p + [] == p && [] + p == p;
    } else {
      ConcatAppends(s.outgoing[1..], p);
      assert t.outgoing[1..] == s.outgoing[1..] + [p];
      var first := s.outgoing[0][s.sentBytes..];
      assert first + (Concat(s.outgoing[1..]) + p) == first + Concat(s.outgoing[1..]) + p;
    }
  }

  /** Closing an end throws away only what had not been sent. */
  lemma {:induction false} ClosingKeeps(s: System)
    requires Inv(s)
    ensures Inv(s.(sender := ClosedSender(s.sender)))
  {
    var d, i, u := Stream(s.delivered), s.receiver.incoming + s.channel, Unsent(s.sender);
    assert Unsent(ClosedSender(s.sender)) == [];
    assert [] <= u;
    if s.receiver.open { PrefixInside(d, i, u, [], Stream(s.accepted)); }
  }

  /** A delivered message was the next one sent. */
  lemma {:induction false} DeliveryKeeps(s: System, body: Bytes, channel: Bytes)
    requires Inv(s) && s.receiver.open && BodyOk(body) && s.receiver.incoming + s.channel == Frame(body) + channel
    ensures Inv(s.(receiver := Receiver(true, []), channel := channel, delivered := s.delivered + [body]))
  {
    StreamOne(body);
    StreamAppends(s.delivered, [body]);
    var d, u, f := Stream(s.delivered), Unsent(s.sender), Frame(body);
    var delivered := s.delivered + [body];
    hide Stream, Unsent, Frame, SenderOk;
    assert d + (f + channel + u) == d + f + (channel + u);
    assert [] + channel + u == channel + u;
    assert Stream(delivered) + (channel + u) <= Stream(s.accepted);
    PrefixOfPrefix(Stream(delivered), channel + u, Stream(s.accepted));
    StreamsTellMessages(delivered, s.accepted);
  }

  lemma {:induction false} ReceivingKeeps(s: System, polls: seq<Answer>)
    requires Inv(s)
    ensures Inv(Step(s, Receiving(polls)))
  {
    var (r, channel, result) := Receive(s.receiver, s.channel, polls);
    ReceiveConserves(s.receiver, s.channel, polls);
    hide Receive, Stream, Unsent, Frame, SenderOk, BodyOk, LengthOk;
    assert s.delivered + [] == s.delivered;
    if r.open && result.Message? {
      DeliveryKeeps(s, result.body, channel);
      assert r == Receiver(true, []);
    }
  }

  lemma {:induction false} PrefixOfPrefix(a: Bytes, b: Bytes, whole: Bytes)
    requires a + b <= whole
    ensures a <= whole
  {
    assert (a + b)[..|a|] == a;
  }

  lemma {:induction false} StepKeeps(s: System, a: Action)
    requires Inv(s) && Possible(a)
    ensures Inv(Step(s, a))
  {
    match a {
      case Sending(body, answers) =>
        if s.sender.open {
          if |s.sender.outgoing| == MAX_QUEUED {
            ClosingKeeps(s);
          } else {
            QueueingKeeps(s, body);
            hide Inv;
            FlushingKeeps(s.(accepted := s.accepted + [body]),
              s.sender.(outgoing := s.sender.outgoing + [Frame(body)]), answers);
          }
        }
      case Flushing(calls) => FlushingKeeps(s, s.sender, calls) by { assert s.(sender := s.sender) == s; }
      case Receiving(polls) => ReceivingKeeps(s, polls);
      case CloseSender => ClosingKeeps(s);
      case CloseReceiver =>
    }
  }

  lemma {:induction false} StartHolds()
    ensures Inv(Start())
  {
  }

  lemma {:induction false} RunKeeps(s: System, actions: seq<Action>, t: System)
    requires Inv(s) && Run(s, actions, t)
    ensures Inv(t)
    decreases |actions|
  {
    if actions != [] {
      hide Inv, Step;
      StepKeeps(s, actions[0]);
      RunKeeps(Step(s, actions[0]), actions[1..], t);
    }
  }

  /**
    Whatever the chunks, closings and refusals, the reader has a prefix of the messages sent, unaltered and in order.
   */
  lemma {:induction false} DeliveredInOrder(actions: seq<Action>, s: System)
    requires Run(Start(), actions, s)
    ensures s.delivered <= s.accepted
  {
    StartHolds();
    RunKeeps(Start(), actions, s);
  }

  /** When everything has gone through, every message has been delivered. */
  lemma {:induction false} NothingIsLost(actions: seq<Action>, s: System)
    requires Run(Start(), actions, s) && s.sender.open && s.receiver.open
    requires s.sender.outgoing == [] && s.channel == [] && s.receiver.incoming == []
    ensures s.delivered == s.accepted
  {
    StartHolds();
    RunKeeps(Start(), actions, s);
    var none: Bytes := [];
    assert Unsent(s.sender) == none && none + none + none == none && Stream(s.delivered) + none == Stream(s.delivered);
    StreamsEqual(s.delivered, s.accepted);
  }

  /**
    The reader never gives up a connection over a length, and never asks for bytes of the next message or more than its
    buffer of 1035 bytes holds: what it holds and what it asks for make up one message.
   */
  lemma {:induction false} ReaderStaysInStep(actions: seq<Action>, s: System)
    requires Run(Start(), actions, s) && s.receiver.open
    ensures LengthOk(Required(s.receiver.incoming))
    ensures |s.receiver.incoming| <= Required(s.receiver.incoming) <= MAX_MESSAGE + 2
    ensures s.receiver.incoming != [] ==>
      && |s.delivered| < |s.accepted|
      && BodyOk(s.accepted[|s.delivered|])
      && s.receiver.incoming <= Frame(s.accepted[|s.delivered|])
  {
    hide Run, Step, Unsent, SenderOk, Stream;
    StartHolds();
    RunKeeps(Start(), actions, s);
    var i, d, a := s.receiver.incoming, |s.delivered|, s.accepted;
    if i != [] {
      var rest := s.channel + Unsent(s.sender);
      assert i + s.channel + Unsent(s.sender) == i + rest;
      assert a == a[..d] + a[d..] && a[..d] == s.delivered;
      StreamAppends(a[..d], a[d..]);
      NextFrame(Stream(s.delivered), i, rest, a[d..]);
    }
  }

  lemma {:induction false} NextFrame(before: Bytes, i: Bytes, rest: Bytes, next: seq<Bytes>)
    requires BodiesOk(next) && before + (i + rest) <= before + Stream(next) && i != [] && |i| <= Required(i)
    ensures next != [] && i <= Frame(next[0]) && LengthOk(Required(i))
  {
    var s := Stream(next);
    assert (before + s)[|before|..] == s && (before + (i + rest))[|before|..] == i + rest;
    assert i + rest <= s;
    assert i <= s by { PrefixOfPrefix(i, rest, s); }
    FrameStarts(next[0], Stream(next[1..]));
    if |i| >= 2 {
      assert i[0] == s[0] && i[1] == s[1];
      assert i == s[..|i|] && Frame(next[0]) == s[..2 + |next[0]|];
    } else {
      assert i == s[..|i|] && Frame(next[0]) == s[..2 + |next[0]|];
    }
  }
}
