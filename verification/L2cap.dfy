/**
  SDUs and ACL packets: the controller cuts SDUs for the host and reassembles those the host cuts.
 */
module L2cap {
  import opened Bits

  const MAX_SDU: nat := 1024
  const ACL_PAYLOAD: nat := 251

  /** An SDU with its own length in the header. */
  predicate SduOk(sdu: Bytes) {
    4 <= |sdu| <= MAX_SDU && ReadLe16(sdu) + 4 == |sdu|
  }

  /** An ACL packet: connection handle, packet boundary flag, payload. */
  datatype Acl = Acl(handle: nat, boundary: nat, data: Bytes)

  const CONTINUES: nat := 1
  const STARTS: nat := 2

  // ----- To the host -----

  function Fragments(handle: nat, sdu: Bytes, offset: nat): seq<Acl>
    requires offset <= |sdu|
    decreases |sdu| - offset
  {
    if offset == |sdu| then []
    else
      var size := if ACL_PAYLOAD < |sdu| - offset then ACL_PAYLOAD else |sdu| - offset;
      [Acl(handle, if offset == 0 then STARTS else CONTINUES, sdu[offset..offset + size])]
      + Fragments(handle, sdu, offset + size)
  }

  lemma {:induction false} NextFragment(handle: nat, sdu: Bytes, offset: nat)
    requires offset <= |sdu|
    ensures offset == |sdu| ==> Fragments(handle, sdu, offset) == []
    ensures offset < |sdu| ==>
      var end := offset + if ACL_PAYLOAD < |sdu| - offset then ACL_PAYLOAD else |sdu| - offset;
      Fragments(handle, sdu, offset) ==
      [Acl(handle, if offset == 0 then STARTS else CONTINUES, sdu[offset..end])] + Fragments(handle, sdu, end)
  {
  }

  /** The fragment loop. */
  method CutSdu(handle: nat, sdu: Bytes) returns (packets: seq<Acl>)
    ensures packets == Fragments(handle, sdu, 0)
  {
    hide Fragments;
    packets := [];
    var offset := 0;
    while offset < |sdu|
      invariant offset <= |sdu|
      invariant packets + Fragments(handle, sdu, offset) == Fragments(handle, sdu, 0)
    {
      NextFragment(handle, sdu, offset);
      var size := if ACL_PAYLOAD < |sdu| - offset then ACL_PAYLOAD else |sdu| - offset;
      var packet := Acl(handle, if offset == 0 then STARTS else CONTINUES, sdu[offset..offset + size]);
      ghost var rest := Fragments(handle, sdu, offset + size);
      assert packets + ([packet] + rest) == packets + [packet] + rest;
      packets := packets + [packet];
      offset := offset + size;
    }
    NextFragment(handle, sdu, offset);
    assert packets + [] == packets;
  }

  /** The size of the fragment at an offset. */
  function FragmentSize(sdu: Bytes, offset: nat): (size: nat)
    requires offset < |sdu|
    ensures 0 < size <= |sdu| - offset
  {
    if ACL_PAYLOAD < |sdu| - offset then ACL_PAYLOAD else |sdu| - offset
  }

  lemma {:induction false} FragmentCount(handle: nat, sdu: Bytes, offset: nat)
    requires offset <= |sdu|
    ensures |Fragments(handle, sdu, offset)| * ACL_PAYLOAD < |sdu| - offset + ACL_PAYLOAD
    ensures |sdu| - offset > 0 ==> |Fragments(handle, sdu, offset)| > 0
    decreases |sdu| - offset
  {
    if offset < |sdu| {
      var size := FragmentSize(sdu, offset);
      FragmentCount(handle, sdu, offset + size);
    }
  }

  /** An SDU takes at most five packets. */
  lemma {:induction false} AtMostFive(handle: nat, sdu: Bytes)
    requires |sdu| <= MAX_SDU
    ensures |Fragments(handle, sdu, 0)| <= 5
  {
    FragmentCount(handle, sdu, 0);
  }

  /** How a host puts SDUs together again: section 7.2.1 of Volume 3, Part A of the Bluetooth Core specification. */
  datatype Assembled = Assembled(partial: Bytes, sdus: seq<Bytes>)

  /** The SDU is complete once it has the length that its header announces. */
  function Collect(partial: Bytes, sdus: seq<Bytes>): Assembled {
    if |partial| >= 4 && |partial| == ReadLe16(partial) + 4 then Assembled([], sdus + [partial])
    else Assembled(partial, sdus)
  }

  function HostTakes(s: Assembled, packet: Acl): Assembled {
    Collect((if packet.boundary == CONTINUES then s.partial else []) + packet.data, s.sdus)
  }

  function HostTakesAll(s: Assembled, packets: seq<Acl>): Assembled
    decreases |packets|
  {
    if packets == [] then s else HostTakesAll(HostTakes(s, packets[0]), packets[1..])
  }

  lemma {:induction false} FragmentTaken(handle: nat, sdu: Bytes, offset: nat, s: Assembled)
    requires SduOk(sdu) && offset < |sdu| && (offset > 0 ==> s.partial == sdu[..offset])
    ensures var end := offset + FragmentSize(sdu, offset);
      HostTakes(s, Acl(handle, if offset == 0 then STARTS else CONTINUES, sdu[offset..end])) ==
      if end == |sdu| then Assembled([], s.sdus + [sdu]) else Assembled(sdu[..end], s.sdus)
  {
    var end := offset + FragmentSize(sdu, offset);
    var partial := (if offset > 0 then s.partial else []) + sdu[offset..end];
    assert partial == sdu[..end];
    if end == |sdu| { assert partial == sdu; }
    if |partial| >= 4 { assert ReadLe16(partial) == ReadLe16(sdu); }
  }

  lemma {:induction false} FragmentsAssemble(handle: nat, sdu: Bytes, offset: nat, s: Assembled)
    requires SduOk(sdu) && offset < |sdu| && (offset > 0 ==> s.partial == sdu[..offset])
    ensures HostTakesAll(s, Fragments(handle, sdu, offset)) == Assembled([], s.sdus + [sdu])
    decreases |sdu| - offset
  {
    var end := offset + FragmentSize(sdu, offset);
    var packet := Acl(handle, if offset == 0 then STARTS else CONTINUES, sdu[offset..end]);
    var packets := Fragments(handle, sdu, offset);
    assert packets[0] == packet && packets[1..] == Fragments(handle, sdu, end);
    FragmentTaken(handle, sdu, offset, s);
    hide HostTakes, SduOk, FragmentSize;
    if end == |sdu| {
      assert HostTakesAll(HostTakes(s, packet), []) == HostTakes(s, packet);
    } else {
      FragmentsAssemble(handle, sdu, end, HostTakes(s, packet));
    }
  }

  /** Whatever the host was in the middle of, the fragments of an SDU give it exactly that SDU. */
  lemma {:induction false} CutAndAssemble(handle: nat, sdu: Bytes, s: Assembled)
    requires SduOk(sdu)
    ensures HostTakesAll(s, Fragments(handle, sdu, 0)) == Assembled([], s.sdus + [sdu])
  {
    FragmentsAssemble(handle, sdu, 0, s);
  }

  // ----- From the host -----

  /** The controller's side: the SDU so far, the packets accepted but not yet reported, the SDUs sent to the peer. */
  datatype Receiver = Receiver(connection: nat, assembly: Bytes, completed: nat, sent: seq<Bytes>)

  /** Failed is the end of the emulation. */
  datatype Verdict = Accepted(receiver: Receiver) | Ignored | Failed

  function SendAcl(r: Receiver, packet: Acl): Verdict {
    if |packet.data| > ACL_PAYLOAD || packet.boundary >= 3 then Failed
    else if r.connection == 0 || packet.handle != r.connection then Ignored
    else if (packet.boundary == CONTINUES) == (r.assembly == []) then Failed
    else
      var assembly := r.assembly + packet.data;
      if |assembly| < 4 then Failed
      else
        var expected := ReadLe16(assembly) + 4;
        if expected > MAX_SDU || |assembly| > expected || r.completed >= 12 then Failed
        else if |assembly| == expected then
          Accepted(Receiver(r.connection, [], r.completed + 1, r.sent + [assembly]))
        else Accepted(r.(assembly := assembly, completed := r.completed + 1))
  }

  /** Packets taken one after another; in between the controller may report completed ones, which resets the count. */
  function SendAll(r: Receiver, packets: seq<Acl>, reports: seq<bool>): Option<Receiver>
    requires |reports| == |packets|
    decreases |packets|
  {
    if packets == [] then Some(r)
    else
      var before := if reports[0] then r.(completed := 0) else r;
      match SendAcl(before, packets[0])
      case Failed => None
      case Ignored => SendAll(before, packets[1..], reports[1..])
      case Accepted(next) => SendAll(next, packets[1..], reports[1..])
  }

  /** A legal way to cut the rest of an SDU: pieces that fit a packet, the last one not empty. */
  predicate Cuts(pieces: seq<Bytes>, rest: Bytes)
    decreases |pieces|
  {
    if pieces == [] then rest == []
    else
      && |pieces[0]| <= |rest| && |pieces[0]| <= ACL_PAYLOAD && rest != []
      && pieces[0] == rest[..|pieces[0]|]
      && Cuts(pieces[1..], rest[|pieces[0]|..])
  }

  function Packets(handle: nat, start: nat, pieces: seq<Bytes>): seq<Acl>
    decreases |pieces|
  {
    if pieces == [] then [] else [Acl(handle, start, pieces[0])] + Packets(handle, CONTINUES, pieces[1..])
  }

  /** No more than 12 packets are outstanding when the reports come as given. */
  predicate CreditsKept(completed: nat, reports: seq<bool>)
    decreases |reports|
  {
    reports == [] || (var now := if reports[0] then 0 else completed; now < 12 && CreditsKept(now + 1, reports[1..]))
  }

  function CountAfter(completed: nat, reports: seq<bool>): nat
    decreases |reports|
  {
    if reports == [] then completed else CountAfter((if reports[0] then 0 else completed) + 1, reports[1..])
  }

  /** A piece that fits behind what has been assembled is accepted, and completes the SDU if it is the last. */
  lemma {:induction false} PieceAccepted(r: Receiver, sdu: Bytes, done: nat, piece: Bytes, boundary: nat)
    requires SduOk(sdu) && done + |piece| <= |sdu| && r.assembly == sdu[..done] && r.connection != 0 && r.completed < 12
    requires piece == sdu[done..done + |piece|] && |piece| <= ACL_PAYLOAD
    requires done == 0 ==> |piece| >= 4 && (boundary == 0 || boundary == STARTS)
    requires done > 0 ==> done >= 4 && boundary == CONTINUES
    ensures SendAcl(r, Acl(r.connection, boundary, piece)) ==
      if done + |piece| == |sdu| then Accepted(Receiver(r.connection, [], r.completed + 1, r.sent + [sdu]))
      else Accepted(r.(assembly := sdu[..done + |piece|], completed := r.completed + 1))
  {
    var assembly := sdu[..done] + piece;
    assert assembly == sdu[..done + |piece|] && ReadLe16(assembly) == ReadLe16(sdu);
    if done + |piece| == |sdu| { assert assembly == sdu; }
  }

  lemma {:induction false} PiecesAssemble(r: Receiver, sdu: Bytes, done: nat,
                                          pieces: seq<Bytes>, start: nat, reports: seq<bool>)
    requires SduOk(sdu) && done <= |sdu| && r.assembly == sdu[..done] && r.connection != 0 && pieces != []
    requires Cuts(pieces, sdu[done..])
    requires done == 0 ==> |pieces[0]| >= 4 && (start == 0 || start == STARTS)
    requires done > 0 ==> done >= 4 && start == CONTINUES
    requires |Packets(r.connection, start, pieces)| == |pieces| == |reports| && CreditsKept(r.completed, reports)
    ensures SendAll(r, Packets(r.connection, start, pieces), reports) ==
      Some(Receiver(r.connection, [], CountAfter(r.completed, reports), r.sent + [sdu]))
    decreases |pieces|
  {
    hide *;
    var piece := pieces[0];
    var before := if reports[0] then r.(completed := 0) else r;
    var end := done + |piece|;
    CutStep(pieces, sdu, done);
    CreditStep(r.completed, reports);
    PieceAccepted(before, sdu, done, piece, start);
    PacketStep(r.connection, start, pieces);
    PacketCount(r.connection, CONTINUES, pieces[1..]);
    if end == |sdu| {
      var next := Receiver(r.connection, [], before.completed + 1, r.sent + [sdu]);
      SendStep(r, Packets(r.connection, start, pieces), reports, next);
      SendNothing(next, reports[1..]);
    } else {
      var next := before.(assembly := sdu[..end], completed := before.completed + 1);
      SendStep(r, Packets(r.connection, start, pieces), reports, next);
      PiecesAssemble(next, sdu, end, pieces[1..], CONTINUES, reports[1..]);
    }
  }

  lemma {:induction false} CutStep(pieces: seq<Bytes>, sdu: Bytes, done: nat)
    requires done <= |sdu| && pieces != [] && Cuts(pieces, sdu[done..])
    ensures done + |pieces[0]| <= |sdu| && |pieces[0]| <= ACL_PAYLOAD
    ensures pieces[0] == sdu[done..done + |pieces[0]|]
    ensures Cuts(pieces[1..], sdu[done + |pieces[0]|..])
    ensures done + |pieces[0]| == |sdu| <==> pieces[1..] == []
  {
    var end := done + |pieces[0]|;
    assert sdu[done..][|pieces[0]|..] == sdu[end..] && sdu[done..][..|pieces[0]|] == sdu[done..end];
  }

  lemma {:induction false} CreditStep(completed: nat, reports: seq<bool>)
    requires reports != [] && CreditsKept(completed, reports)
    ensures var before := if reports[0] then 0 else completed;
      && before < 12
      && CreditsKept(before + 1, reports[1..])
      && CountAfter(completed, reports) == CountAfter(before + 1, reports[1..])
    ensures forall n :: CountAfter(n, []) == n
  {
  }

  lemma {:induction false} PacketStep(handle: nat, start: nat, pieces: seq<Bytes>)
    requires pieces != []
    ensures Packets(handle, start, pieces) == [Acl(handle, start, pieces[0])] + Packets(handle, CONTINUES, pieces[1..])
    ensures Packets(handle, CONTINUES, []) == []
  {
  }

  lemma {:induction false} SendStep(r: Receiver, packets: seq<Acl>, reports: seq<bool>, next: Receiver)
    requires packets != [] && |reports| == |packets|
    requires SendAcl(if reports[0] then r.(completed := 0) else r, packets[0]) == Accepted(next)
    ensures SendAll(r, packets, reports) == SendAll(next, packets[1..], reports[1..])
  {
    hide SendAcl;
  }

  lemma {:induction false} SendNothing(r: Receiver, reports: seq<bool>)
    requires reports == []
    ensures SendAll(r, [], reports) == Some(r)
  {
  }

  lemma {:induction false} PacketCount(handle: nat, start: nat, pieces: seq<Bytes>)
    ensures |Packets(handle, start, pieces)| == |pieces|
    decreases |pieces|
  {
    if pieces != [] { PacketCount(handle, CONTINUES, pieces[1..]); }
  }

  /** A start packet without the whole header ends the emulation. */
  lemma {:induction false} ShortStart(r: Receiver, pieces: seq<Bytes>, start: nat, reports: seq<bool>)
    requires pieces != [] && |pieces[0]| < 4 && r.assembly == [] && r.connection != 0
    requires |Packets(r.connection, start, pieces)| == |reports|
    ensures SendAll(r, Packets(r.connection, start, pieces), reports) == None
  {
    assert Packets(r.connection, start, pieces)[0] == Acl(r.connection, start, pieces[0]);
  }

  /**
    However a host cuts an SDU, within its credits, the peer gets exactly that SDU and nothing stays behind, if and only
    if the first piece holds the whole header.
   */
  lemma {:induction false} AnyCutAssembles(r: Receiver, sdu: Bytes, pieces: seq<Bytes>, start: nat, reports: seq<bool>)
    requires SduOk(sdu) && Cuts(pieces, sdu) && pieces != [] && (start == 0 || start == STARTS)
    requires r.assembly == [] && r.connection != 0 && |reports| == |pieces| && CreditsKept(r.completed, reports)
    ensures |Packets(r.connection, start, pieces)| == |pieces|
    ensures SendAll(r, Packets(r.connection, start, pieces), reports) ==
            Some(Receiver(r.connection, [], CountAfter(r.completed, reports), r.sent + [sdu])) <==>
            |pieces[0]| >= 4
  {
    hide SendAll, Cuts, CreditsKept, CountAfter, SduOk, Packets;
    PacketCount(r.connection, start, pieces);
    if |pieces[0]| >= 4 {
      assert sdu[..0] == [] && sdu[0..] == sdu;
      PiecesAssemble(r, sdu, 0, pieces, start, reports);
    } else {
      ShortStart(r, pieces, start, reports);
    }
  }

  /** The shortest SDU, cut inside its header. */
  lemma {:induction false} HeaderCutFails()
    ensures SduOk([0, 0, 4, 0]) && Cuts([[0], [0, 4, 0]], [0, 0, 4, 0]) && CreditsKept(0, [false, false])
    ensures SendAll(Receiver(1, [], 0, []), Packets(1, STARTS, [[0], [0, 4, 0]]), [false, false]) == None
  {
    var pieces: seq<Bytes> := [[0], [0, 4, 0]];
    var sdu: Bytes := [0, 0, 4, 0];
    assert pieces[1..] == [[0, 4, 0]] && sdu[1..] == [0, 4, 0];
    assert pieces[1..][1..] == [] && sdu[1..][3..] == [];
    assert [false, false][1..] == [false] && [false][1..] == [];
    PacketCount(1, STARTS, pieces);
    hide SendAll, Cuts, CreditsKept;
    ShortStart(Receiver(1, [], 0, []), pieces, STARTS, [false, false]);
  }

  /** Packets for a handle that is gone are dropped one and all: they reach no SDU and take no credit. */
  lemma {:induction false} LatePacketsChangeNothing(r: Receiver, packets: seq<Acl>, reports: seq<bool>)
    requires |reports| == |packets|
    requires forall i :: 0 <= i < |packets| ==>
      packets[i].handle != r.connection && |packets[i].data| <= ACL_PAYLOAD && packets[i].boundary < 3 && !reports[i]
    ensures SendAll(r, packets, reports) == Some(r)
    decreases |packets|
  {
    if packets != [] { LatePacketsChangeNothing(r, packets[1..], reports[1..]); }
  }

  /** The reassembly buffer and the credit count, changed in place; a refused packet ends the emulation. */
  class AclReassembly {
    var connection: nat
    var assembly: Bytes
    var completed: nat
    var sent: seq<Bytes>

    function View(): Receiver
      reads this
    {
      Receiver(connection, assembly, completed, sent)
    }

    constructor (connection: nat)
      ensures View() == Receiver(connection, [], 0, [])
    {
      this.connection, assembly, completed, sent := connection, [], 0, [];
    }

    method Take(packet: Acl) returns (fine: bool)
      modifies this
      ensures !fine <==> SendAcl(old(View()), packet).Failed?
      ensures SendAcl(old(View()), packet).Ignored? ==> View() == old(View())
      ensures SendAcl(old(View()), packet).Accepted? ==> View() == SendAcl(old(View()), packet).receiver
    {
      if |packet.data| > ACL_PAYLOAD || packet.boundary >= 3 { return false; }
      if connection == 0 || packet.handle != connection { return true; }
      if packet.boundary == CONTINUES {
        if assembly == [] { return false; }
      } else if assembly != [] {
        return false;
      }
      assembly := assembly + packet.data;
      if |assembly| < 4 { return false; }
      var expected := ReadLe16(assembly) + 4;
      if expected > MAX_SDU || |assembly| > expected { return false; }
      if |assembly| == expected {
        sent := sent + [assembly];
        assembly := [];
      }
      completed := completed + 1;
      return completed <= 12;
    }
  }
}
