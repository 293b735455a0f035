/** What a whole read leaves in the channel's registers, told by the descriptors it has used up. */
module SpiHistory {
  import opened Bits
  import opened Division
  import opened SpiDma

  /** A descriptor that was used up: its address, its first word, and the address of the next one. */
  datatype Used = Used(descriptor: nat, flags: nat, next: nat)

  /** Bit 30 of the first word. */
  predicate LastOfFrame(u: Used) {
    u.flags / 0x4000_0000 % 2 == 1
  }

  predicate LastOfChain(u: Used) {
    u.next == 0
  }

  function UsedAt(p: Place): Used
    requires Mapped(p.memory, p.descriptor, 12)
  {
    assert Mapped(p.memory, p.descriptor, 4) && Mapped(p.memory, p.descriptor + 8, 4);
    Used(p.descriptor, Word(p.memory, p.descriptor), Word(p.memory, p.descriptor + 8))
  }

  /** The descriptors that `size` bytes along the chain use up. */
  function UsedUp(p: Place, size: nat): seq<Used>
    requires Serves(p, size)
    decreases size
  {
    if size == 0 || size < Left(p) then [] else [UsedAt(p)] + UsedUp(NextPlace(p), size - Left(p))
  }

  /** The fields of the first word: bits 12 to 23, bit 31, and bit 30. */
  lemma {:induction false} FirstWordFields(m: Memory, a: nat)
    requires Mapped(m, a, 12)
    ensures Mapped(m, a, 4)
    ensures Length(m, a) == Word(m, a) / 0x1000 % 0x1000
    ensures Owned(m, a) <==> Word(m, a) / 0x8000_0000 == 1
    ensures EndsFrame(m, a) <==> Word(m, a) / 0x4000_0000 % 2 == 1
  {
    assert Mapped(m, a, 4);
    WordFields(m[a], m[a + 1], m[a + 2], m[a + 3]);
  }

  lemma {:induction false} WordFields(b0: Byte, b1: Byte, b2: Byte, b3: Byte)
    ensures var w: nat := b0 as int + 0x100 * b1 as int + 0x1_0000 * b2 as int + 0x100_0000 * b3 as int;
      && w / 0x1000 % 0x1000 == b1 as int / 16 + 16 * b2 as int
      && w / 0x8000_0000 == b3 as int / 128
      && w / 0x4000_0000 == b3 as int / 64
  {
    var low, top: int := b0 as int + 0x100 * b1 as int + 0x1_0000 * b2 as int, b3;
    var w, n, k := low + 0x100_0000 * top, b1 as int / 16, b1 as int % 16;
    assert b1 as int == 16 * n + k;
    Quotient(w, 0x1000, n + 16 * b2 as int + 0x1000 * top, b0 as int + 0x100 * k);
    Quotient(n + 16 * b2 as int + 0x1000 * top, 0x1000, top, n + 16 * b2 as int);
    assert top == 128 * (top / 128) + top % 128 && top == 64 * (top / 64) + top % 64;
    Quotient(w, 0x8000_0000, top / 128, low + 0x100_0000 * (top % 128));
    Quotient(w, 0x4000_0000, top / 64, low + 0x100_0000 * (top % 64));
  }

  predicate SomeEndsFrame(used: seq<Used>) {
    exists k :: 0 <= k < |used| && LastOfFrame(used[k])
  }

  predicate SomeEndsChain(used: seq<Used>) {
    exists k :: 0 <= k < |used| && LastOfChain(used[k])
  }

  /** The address is that of the last descriptor that ended a frame. */
  predicate IsFrameEnd(used: seq<Used>, address: nat) {
    exists k :: 0 <= k < |used| && LastOfFrame(used[k]) && address == used[k].descriptor
      && forall j :: k < j < |used| ==> !LastOfFrame(used[j])
  }

  /** The registers after `used` descriptors were used up. */
  predicate Recorded(c: Channel, used: seq<Used>, d: Channel) {
    && (used == [] ==> d == c)
    && (used != [] ==>
          var u := used[|used| - 1];
          && d.last == u.descriptor
          && d.state == u.descriptor % 0x4_0000
          && d.upcoming == u.next
          && d.secondLast == if |used| > 1 then used[|used| - 2].descriptor else c.last)
    && d.raw == c.raw
         + (if used != [] then {DONE} else {})
         + (if SomeEndsFrame(used) then {FRAME_END} else {})
         + (if SomeEndsChain(used) then {CHAIN_END} else {})
    && (d.parked <==> c.parked || SomeEndsChain(used))
    && (if SomeEndsFrame(used) then IsFrameEnd(used, d.frameEnd) else d.frameEnd == c.frameEnd)
    && SameSettings(c, d)
  }

  predicate SameSettings(c: Channel, d: Channel) {
    && d.peripheral == c.peripheral && d.start == c.start && d.linkAddress == c.linkAddress
    && d.writeBack == c.writeBack && d.checkOwner == c.checkOwner
    && d.enabled == c.enabled && d.pending == c.pending
  }

  /** One descriptor. */
  lemma {:induction false} OneRecorded(s: Chain)
    requires Mapped(s.memory, s.descriptor, 12)
    ensures Recorded(s.channel, [UsedAt(PlaceOf(s))], Finish(s).channel)
  {
    var u := UsedAt(PlaceOf(s));
    FirstWordFields(s.memory, s.descriptor);
    assert LastOfFrame(u) <==> EndsFrame(s.memory, s.descriptor);
    assert u.next == Next(s.memory, s.descriptor);
    hide Word, EndsFrame, Next, Length, Owned;
    assert [u][0] == u;
    assert SomeEndsFrame([u]) <==> LastOfFrame(u);
    assert SomeEndsChain([u]) <==> LastOfChain(u);
  }

  lemma {:induction false} SomeAppend(first: Used, rest: seq<Used>)
    ensures SomeEndsFrame([first] + rest) <==> LastOfFrame(first) || SomeEndsFrame(rest)
    ensures SomeEndsChain([first] + rest) <==> LastOfChain(first) || SomeEndsChain(rest)
  {
    hide LastOfFrame, LastOfChain;
    var all := [first] + rest;
    assert all[0] == first && all[1..] == rest;
    if SomeEndsFrame(rest) {
      var k :| 0 <= k < |rest| && LastOfFrame(rest[k]);
      assert all[k + 1] == rest[k];
    }
    if SomeEndsChain(rest) {
      var k :| 0 <= k < |rest| && LastOfChain(rest[k]);
      assert all[k + 1] == rest[k];
    }
  }

  lemma {:induction false} FrameEndAppend(first: Used, rest: seq<Used>, address: nat)
    ensures IsFrameEnd(rest, address) ==> IsFrameEnd([first] + rest, address)
    ensures !SomeEndsFrame(rest) && LastOfFrame(first) && address == first.descriptor ==>
      IsFrameEnd([first] + rest, address)
  {
    hide LastOfFrame;
    var all := [first] + rest;
    assert all[0] == first;
    forall j | 0 < j < |all|
      ensures all[j] == rest[j - 1]
    {
    }
    if IsFrameEnd(rest, address) {
      var k :| 0 <= k < |rest| && LastOfFrame(rest[k]) && address == rest[k].descriptor
        && forall j :: k < j < |rest| ==> !LastOfFrame(rest[j]);
      assert all[k + 1] == rest[k];
    }
  }

  lemma {:induction false} RecordedTwice(c: Channel, first: Used, d: Channel, rest: seq<Used>, e: Channel)
    requires Recorded(c, [first], d) && Recorded(d, rest, e)
    ensures Recorded(c, [first] + rest, e)
  {
    hide LastOfFrame, LastOfChain, IsFrameEnd, SomeEndsFrame, SomeEndsChain;
    SomeAppend(first, rest);
    SomeAppend(first, []);
    NoneEnds();
    assert [first] + [] == [first];
    FrameEndAppend(first, rest, e.frameEnd);
    if LastOfFrame(first) { OneFrameEnd(first, d.frameEnd); }
  }

  lemma {:induction false} NoneEnds()
    ensures !SomeEndsFrame([]) && !SomeEndsChain([])
  {
  }

  lemma {:induction false} OneFrameEnd(first: Used, address: nat)
    ensures IsFrameEnd([first], address) ==> address == first.descriptor
  {
  }

  lemma {:induction false} NothingRecorded(c: Channel)
    ensures Recorded(c, [], c)
  {
    NoneEnds();
  }

  /**
    A read that succeeds leaves the channel as the descriptors it used up say: the last two of them are recorded, the
    frame-end interrupt is raised if and only if one of them had bit 30, whose address is kept, and the chain-end
    interrupt, which parks the channel, if and only if one of them had no next one.
   */
  lemma {:induction false} ReadRecords(s: Chain, size: nat)
    requires Read(s, size).Done?
    ensures Serves(PlaceOf(s), size)
    ensures Recorded(s.channel, UsedUp(PlaceOf(s), size), Read(s, size).chain.channel)
    decreases size
  {
    hide *;
    ReadServes(s, size);
    if size == 0 {
      ReadNothing(s);
      NoneUsed(PlaceOf(s), 0);
      NothingRecorded(s.channel);
    } else if Piece(s, size).Some? {
      ReadStep(s, size);
      PieceServes(s, size);
      var t, piece := AfterPiece(s, size), Piece(s, size).value;
      PrependChain(PieceBytes(s, size), Read(t, size - piece));
      ReadRecords(t, size - piece);
      PieceUses(s, size);
      if size >= Left(PlaceOf(s)) {
        RecordedTwice(s.channel, UsedAt(PlaceOf(s)), t.channel, UsedUp(PlaceOf(t), size - piece),
          Read(t, size - piece).chain.channel);
      } else {
        NoneUsed(PlaceOf(t), 0);
      }
    } else {
      FailsSooner(s, size, 0);
    }
  }

  lemma {:induction false} NoneUsed(p: Place, size: nat)
    requires Serves(p, size) && (size == 0 || (Ready(p) && size < Left(p)))
    ensures UsedUp(p, size) == []
  {
  }

  /** What one pass of the reading loop uses up. */
  lemma {:induction false} PieceUses(s: Chain, size: nat)
    requires size > 0 && Piece(s, size).Some? && Serves(PlaceOf(s), size)
    ensures Ready(PlaceOf(s))
    ensures var p, t := PlaceOf(s), AfterPiece(s, size);
      if size >= Left(p) then
        && Mapped(p.memory, p.descriptor, 12)
        && Piece(s, size).value == Left(p)
        && PlaceOf(t) == NextPlace(p)
        && Serves(NextPlace(p), size - Left(p))
        && UsedUp(p, size) == [UsedAt(p)] + UsedUp(NextPlace(p), size - Left(p))
        && Recorded(s.channel, [UsedAt(p)], t.channel)
      else Piece(s, size).value == size && t.channel == s.channel && UsedUp(p, size) == []
  {
    var p := PlaceOf(s);
    PieceMeans(s, size);
    if size >= Left(p) {
      OneRecorded(s);
      FinishesWhole(s, size);
    }
    hide Finish, BufferAnswers, BufferAt, Recorded, UsedAt, NextPlace;
  }

  lemma {:induction false} FinishesWhole(s: Chain, size: nat)
    requires size > 0 && Piece(s, size).Some? && Ready(PlaceOf(s)) && size >= Left(PlaceOf(s))
    ensures AfterPiece(s, size) == Finish(s)
  {
  }

  /** Handing a descriptor back clears its ownership and nothing else of memory; without hand-back nothing changes. */
  lemma {:induction false} HandBackClearsOwner(s: Chain)
    requires Mapped(s.memory, s.descriptor, 12)
    ensures Mapped(Finish(s).memory, s.descriptor, 12) && Mapped(s.memory, s.descriptor, 4)
    ensures s.channel.writeBack ==>
      Word(Finish(s).memory, s.descriptor) == Word(s.memory, s.descriptor) % 0x8000_0000
    ensures !s.channel.writeBack ==> Finish(s).memory == s.memory
    ensures forall a :: a in s.memory && !(s.descriptor <= a < s.descriptor + 4) ==>
      a in Finish(s).memory && Finish(s).memory[a] == s.memory[a]
  {
    var m, d := s.memory, s.descriptor;
    assert Mapped(m, d, 4) && d + 3 in m;
    assert Finish(s).memory == if s.channel.writeBack then m[d + 3 := m[d + 3] % 128] else m;
    hide Finish, Word;
    TopBitCleared(m, d);
  }

  lemma {:induction false} TopBitCleared(m: Memory, d: nat)
    requires Mapped(m, d, 4) && d + 3 in m
    ensures var n := m[d + 3 := m[d + 3] % 128]; Mapped(n, d, 4) && Word(n, d) == Word(m, d) % 0x8000_0000
  {
    var n := m[d + 3 := m[d + 3] % 128];
    assert Mapped(n, d, 4) && n[d] == m[d] && n[d + 1] == m[d + 1] && n[d + 2] == m[d + 2];
  }
}
