/**
  The SPI controller's reads from a GDMA descriptor chain: the position in the chain is kept between
  transfers, finished descriptors are handed back to software, and their addresses are recorded.
 */
module SpiDma {
  import opened Bits

  /** Memory as the DMA engine sees it; an address outside the map does not answer. */
  type Memory = map<nat, Byte>

  const WORDS: nat := 0x1_0000_0000

  /** Nothing answers past the 32-bit address space, so no single bus access runs on into it. */
  predicate MemoryOk(m: Memory) {
    forall a :: a in m ==> a < WORDS
  }

  predicate Mapped(m: Memory, a: nat, n: nat) {
    forall k :: a <= k < a + n ==> k in m
  }

  function Block(m: Memory, a: nat, n: nat): (r: seq<Byte>)
    requires Mapped(m, a, n)
    ensures |r| == n && forall k :: 0 <= k < n ==> r[k] == m[a + k]
  {
    seq(n, k requires 0 <= k < n => m[a + k])
  }

  // ----- Descriptors: three little-endian words -----

  function Word(m: Memory, a: nat): nat
    requires Mapped(m, a, 4)
  {
    m[a] as int + 0x100 * m[a + 1] as int + 0x1_0000 * m[a + 2] as int + 0x100_0000 * m[a + 3] as int
  }

  /** Bits 12 to 23 of the first word. */
  function Length(m: Memory, a: nat): nat
    requires Mapped(m, a, 12)
  {
    m[a + 1] as int / 16 + 16 * m[a + 2] as int
  }

  /** Bit 31: the descriptor belongs to the DMA engine. */
  predicate Owned(m: Memory, a: nat)
    requires Mapped(m, a, 12)
  {
    m[a + 3] >= 128
  }

  /** Bit 30: the last descriptor of a frame. */
  predicate EndsFrame(m: Memory, a: nat)
    requires Mapped(m, a, 12)
  {
    m[a + 3] / 64 % 2 == 1
  }

  function Next(m: Memory, a: nat): nat
    requires Mapped(m, a, 12)
  {
    assert Mapped(m, a + 8, 4);
    Word(m, a + 8)
  }

  /** Where byte `offset` of the descriptor's buffer lies; the sum wraps at 32 bits. */
  function BufferAt(m: Memory, a: nat, offset: nat): nat
    requires Mapped(m, a, 12)
  {
    assert Mapped(m, a + 4, 4);
    (Word(m, a + 4) + offset) % WORDS
  }

  // ----- The channel and the chain position -----

  /** A GDMA out channel: its link register, its configuration, its history, and its interrupt bits. */
  datatype Channel = Channel(peripheral: nat, start: bool, linkAddress: nat, parked: bool,
                             writeBack: bool, checkOwner: bool,
                             secondLast: nat, last: nat, upcoming: nat, state: nat, frameEnd: nat,
                             raw: set<nat>, enabled: set<nat>, pending: set<nat>)

  const DONE: nat := 0
  const FRAME_END: nat := 1
  const CHAIN_END: nat := 3

  datatype Chain = Chain(memory: Memory, channel: Channel, descriptor: nat, offset: nat)

  datatype Outcome = Done(chain: Chain, data: seq<Byte>) | Failed(chain: Chain)

  function Prepend(data: seq<Byte>, r: Outcome): Outcome {
    match r
    case Done(chain, rest) => Done(chain, data + rest)
    case Failed(chain) => r
  }

  /** The descriptor is used up. */
  function Finish(s: Chain): Chain
    requires Mapped(s.memory, s.descriptor, 12)
  {
    var m, d, next := s.memory, s.descriptor, Next(s.memory, s.descriptor);
    var bits := {DONE} + (if EndsFrame(m, d) then {FRAME_END} else {}) + (if next == 0 then {CHAIN_END} else {});
    Chain(if s.channel.writeBack then m[d + 3 := m[d + 3] % 128] else m,
          s.channel.(secondLast := s.channel.last, last := d, upcoming := next, state := d % 0x4_0000,
                     raw := s.channel.raw + bits,
                     frameEnd := if EndsFrame(m, d) then d else s.channel.frameEnd,
                     parked := s.channel.parked || next == 0),
          next, 0)
  }

  /** The bytes of the current descriptor that a read of `size` bytes takes at once; None when it cannot go on. */
  function Piece(s: Chain, size: nat): (r: Option<nat>)
    ensures r.Some? && size > 0 ==> 0 < r.value <= size
  {
    if !Mapped(s.memory, s.descriptor, 12) then None
    else
      var length := Length(s.memory, s.descriptor);
      if length <= s.offset || (s.channel.checkOwner && !Owned(s.memory, s.descriptor)) then None
      else
        var chunk := if size < length - s.offset then size else length - s.offset;
        if Mapped(s.memory, BufferAt(s.memory, s.descriptor, s.offset), chunk) then Some(chunk) else None
  }

  function PieceBytes(s: Chain, size: nat): seq<Byte>
    requires Piece(s, size).Some?
  {
    Block(s.memory, BufferAt(s.memory, s.descriptor, s.offset), Piece(s, size).value)
  }

  function AfterPiece(s: Chain, size: nat): Chain
    requires Piece(s, size).Some?
  {
    var offset := s.offset + Piece(s, size).value;
    if offset == Length(s.memory, s.descriptor) then Finish(s) else s.(offset := offset)
  }

  /** The reading loop; it ends for any memory contents, as every piece is at least one byte. */
  function Read(s: Chain, size: nat): Outcome
    decreases size
  {
    if size == 0 then Done(s, [])
    else if Piece(s, size).None? then Failed(s)
    else Prepend(PieceBytes(s, size), Read(AfterPiece(s, size), size - Piece(s, size).value))
  }

  // ----- What a read needs of memory -----

  /** A position in a chain, with all that decides whether reading on from it succeeds. */
  datatype Place = Place(memory: Memory, descriptor: nat, offset: nat, writeBack: bool, checkOwner: bool)

  function PlaceOf(s: Chain): Place {
    Place(s.memory, s.descriptor, s.offset, s.channel.writeBack, s.channel.checkOwner)
  }

  /** The descriptor at the place is there, belongs to the engine, and has bytes left. */
  predicate Ready(p: Place) {
    && Mapped(p.memory, p.descriptor, 12)
    && p.offset < Length(p.memory, p.descriptor)
    && (p.checkOwner ==> Owned(p.memory, p.descriptor))
  }

  function Left(p: Place): (r: nat)
    requires Ready(p)
    ensures r > 0
  {
    Length(p.memory, p.descriptor) - p.offset
  }

  /** The buffer answers for `size` bytes, or for as many as the descriptor has left. */
  predicate BufferAnswers(p: Place, size: nat)
    requires Ready(p)
  {
    Mapped(p.memory, BufferAt(p.memory, p.descriptor, p.offset), if size < Left(p) then size else Left(p))
  }

  /** The start of the next descriptor, the used one handed back. */
  function NextPlace(p: Place): Place
    requires Ready(p)
  {
    var m, d := p.memory, p.descriptor;
    p.(memory := if p.writeBack then m[d + 3 := m[d + 3] % 128] else m, descriptor := Next(m, d), offset := 0)
  }

  /** Following the chain from the place, `size` bytes lie in descriptors that are ready and buffers that answer. */
  predicate Serves(p: Place, size: nat)
    decreases size
  {
    size > 0 ==>
      && Ready(p)
      && BufferAnswers(p, size)
      && (size >= Left(p) ==> Serves(NextPlace(p), size - Left(p)))
  }

  /** Where `size` bytes further along the chain is. */
  function Walk(p: Place, size: nat): Place
    requires Serves(p, size)
    decreases size
  {
    if size == 0 then p
    else if size < Left(p) then p.(offset := p.offset + size)
    else Walk(NextPlace(p), size - Left(p))
  }

  lemma {:induction false} PieceServes(s: Chain, size: nat)
    requires size > 0
    ensures Piece(s, size).None? ==> !Serves(PlaceOf(s), size)
    ensures Piece(s, size).Some? ==>
      && (Serves(PlaceOf(s), size) <==> Serves(PlaceOf(AfterPiece(s, size)), size - Piece(s, size).value))
      && (Serves(PlaceOf(s), size) ==>
            Walk(PlaceOf(s), size) == Walk(PlaceOf(AfterPiece(s, size)), size - Piece(s, size).value))
  {
    hide *;
    var p := PlaceOf(s);
    PieceMeans(s, size);
    if Piece(s, size).None? {
      ServesNoPiece(p, size);
    } else if size < Left(p) {
      ServesInside(p, size);
      ServesNothing(p.(offset := p.offset + size));
    } else {
      ServesWhole(p, size);
    }
  }

  /** What the loop takes at once is what the descriptor has left, or all that is asked for. */
  lemma {:induction false} PieceMeans(s: Chain, size: nat)
    requires size > 0
    ensures var p := PlaceOf(s);
      && (Piece(s, size).Some? <==> Ready(p) && BufferAnswers(p, size))
      && (Piece(s, size).Some? ==> Piece(s, size).value == if size < Left(p) then size else Left(p))
      && (Piece(s, size).Some? ==>
            PlaceOf(AfterPiece(s, size)) ==
            if size < Left(p) then p.(offset := p.offset + size) else NextPlace(p))
  {
  }

  lemma {:induction false} ServesNoPiece(p: Place, size: nat)
    requires size > 0 && !(Ready(p) && BufferAnswers(p, size))
    ensures !Serves(p, size)
  {
    hide Ready, BufferAnswers;
  }

  lemma {:induction false} ServesInside(p: Place, size: nat)
    requires size > 0 && Ready(p) && BufferAnswers(p, size) && size < Left(p)
    ensures Serves(p, size)
    ensures Walk(p, size) == p.(offset := p.offset + size)
  {
    hide Ready, BufferAnswers, Left;
  }

  lemma {:induction false} ServesWhole(p: Place, size: nat)
    requires size > 0 && Ready(p) && BufferAnswers(p, size) && size >= Left(p)
    ensures Serves(p, size) <==> Serves(NextPlace(p), size - Left(p))
    ensures Serves(p, size) ==> Walk(p, size) == Walk(NextPlace(p), size - Left(p))
  {
    hide Ready, BufferAnswers, Left, NextPlace;
  }

  /** A read succeeds exactly when the chain serves it, and then ends where the walk does. */
  lemma {:induction false} ReadServes(s: Chain, size: nat)
    ensures Read(s, size).Done? <==> Serves(PlaceOf(s), size)
    ensures Read(s, size).Done? ==> PlaceOf(Read(s, size).chain) == Walk(PlaceOf(s), size)
    decreases size
  {
    hide *;
    if size == 0 {
      ReadNothing(s);
      ServesNothing(PlaceOf(s));
    } else if Piece(s, size).Some? {
      PieceServes(s, size);
      ReadStep(s, size);
      PrependChain(PieceBytes(s, size), Read(AfterPiece(s, size), size - Piece(s, size).value));
      ReadServes(AfterPiece(s, size), size - Piece(s, size).value);
    } else {
      PieceServes(s, size);
      FailsSooner(s, size, 0);
    }
  }

  lemma {:induction false} ReadNothing(s: Chain)
    ensures Read(s, 0) == Done(s, [])
  {
  }

  lemma {:induction false} ServesNothing(p: Place)
    ensures Serves(p, 0) && Walk(p, 0) == p
  {
  }

  lemma {:induction false} ReadStep(s: Chain, size: nat)
    requires size > 0 && Piece(s, size).Some?
    ensures 0 < Piece(s, size).value <= size
    ensures Read(s, size) == Prepend(PieceBytes(s, size), Read(AfterPiece(s, size), size - Piece(s, size).value))
  {
  }

  lemma {:induction false} PrependChain(data: seq<Byte>, r: Outcome)
    ensures Prepend(data, r).Done? <==> r.Done?
    ensures Prepend(data, r).chain == r.chain
  {
  }

  /** Where the shorter read cannot start, the longer one cannot. */
  lemma {:induction false} FailsSooner(s: Chain, n: nat, m: nat)
    requires n > 0 && Piece(s, n).None?
    ensures Read(s, n) == Failed(s) && Read(s, n + m) == Failed(s)
  {
  }

  // ----- The reading loop, piece by piece -----

  lemma {:induction false} PrependTwice(a: seq<Byte>, b: seq<Byte>, r: Outcome)
    ensures Prepend(a, Prepend(b, r)) == Prepend(a + b, r)
  {
    if r.Done? { assert a + (b + r.data) == a + b + r.data; }
  }

  /** The reading loop goes on by one piece, or stops. */
  lemma {:induction false} ReadOn(start: Chain, size: nat, before: seq<Byte>, s: Chain, left: nat)
    requires left > 0 && Piece(s, left).Some? && Read(start, size) == Prepend(before, Read(s, left))
    ensures Read(start, size) ==
            Prepend(before + PieceBytes(s, left), Read(AfterPiece(s, left), left - Piece(s, left).value))
  {
    hide *;
    ReadStep(s, left);
    PrependTwice(before, PieceBytes(s, left), Read(AfterPiece(s, left), left - Piece(s, left).value));
  }

  lemma {:induction false} ReadStops(start: Chain, size: nat, before: seq<Byte>, s: Chain, left: nat)
    requires left > 0 && Piece(s, left).None? && Read(start, size) == Prepend(before, Read(s, left))
    ensures Read(start, size) == Failed(s)
  {
  }

  lemma {:induction false} ReadBegins(s: Chain, size: nat)
    ensures Read(s, size) == Prepend([], Read(s, size))
  {
    if Read(s, size).Done? { assert [] + Read(s, size).data == Read(s, size).data; }
  }

  lemma {:induction false} ReadEnds(start: Chain, size: nat, data: seq<Byte>, s: Chain)
    requires Read(start, size) == Prepend(data, Read(s, 0))
    ensures Read(start, size) == Done(s, data)
  {
    assert data + [] == data;
  }

  // ----- Reading in two goes -----

  /** What a read and the one after it give together. */
  function Then(r: Outcome, m: nat): Outcome {
    match r
    case Failed(_) => r
    case Done(t, data) => Prepend(data, Read(t, m))
  }

  /** The outcome, but for the position that a failed read leaves. */
  predicate SameOutcome(a: Outcome, b: Outcome) {
    (a.Done? <==> b.Done?) && (a.Done? ==> a == b)
  }

  /** The place is inside a buffer, just where its addresses start again from 0. */
  predicate WrapsAt(p: Place) {
    && p.offset > 0
    && Mapped(p.memory, p.descriptor, 12)
    && BufferAt(p.memory, p.descriptor, p.offset) == 0
  }

  /** After `n` bytes a buffer starts again from address 0, which one access may not run across. */
  predicate CutsAtWrap(p: Place, n: nat) {
    n > 0 && Serves(p, n) && WrapsAt(Walk(p, n))
  }

  /**
    Reading n bytes and then m bytes is reading n + m bytes, unless the cut is where a buffer's addresses start again
    from 0: there one access fails where two may succeed.
   */
  lemma {:induction false} ReadSplits(s: Chain, n: nat, m: nat)
    requires MemoryOk(s.memory)
    ensures SameOutcome(Then(Read(s, n), m), Read(s, n + m)) <==>
            !(m > 0 && CutsAtWrap(PlaceOf(s), n) && Serves(Walk(PlaceOf(s), n), m))
  {
    hide *;
    if m == 0 {
      AllFirst(s, n);
      return;
    }
    JoinedRead(s, n, m);
    if Serves(PlaceOf(s), n) {
      ThenServes(s, n, m);
      CutsOnlyServed(PlaceOf(s), n);
    } else {
      NotServed(s, n, m);
    }
  }

  lemma {:induction false} AllFirst(s: Chain, n: nat)
    ensures SameOutcome(Then(Read(s, n), 0), Read(s, n))
  {
    var r := Read(s, n);
    if r.Done? { assert r.data + [] == r.data; }
  }

  lemma {:induction false} CutsOnlyServed(p: Place, n: nat)
    ensures CutsAtWrap(p, n) ==> Serves(p, n)
  {
  }

  lemma {:induction false} NotServed(s: Chain, n: nat, m: nat)
    requires !Serves(PlaceOf(s), n) && (Read(s, n + m).Done? ==> Then(Read(s, n), m) == Read(s, n + m))
    ensures !CutsAtWrap(PlaceOf(s), n)
    ensures Then(Read(s, n), m).Failed?
    ensures SameOutcome(Then(Read(s, n), m), Read(s, n + m))
  {
    hide Read, Serves, PlaceOf, Walk;
    ReadServes(s, n);
  }

  lemma {:induction false} ThenServes(s: Chain, n: nat, m: nat)
    requires Serves(PlaceOf(s), n)
    requires Read(s, n + m).Done? <==> Then(Read(s, n), m).Done? && !CutsAtWrap(PlaceOf(s), n)
    requires Read(s, n + m).Done? ==> Then(Read(s, n), m) == Read(s, n + m)
    ensures Then(Read(s, n), m).Done? <==> Serves(Walk(PlaceOf(s), n), m)
    ensures SameOutcome(Then(Read(s, n), m), Read(s, n + m)) <==>
            !(CutsAtWrap(PlaceOf(s), n) && Serves(Walk(PlaceOf(s), n), m))
  {
    hide Read, Serves, PlaceOf, Walk, CutsAtWrap;
    ReadServes(s, n);
    ReadServes(Read(s, n).chain, m);
  }

  /** The long read succeeds exactly when both short ones do and the cut is not at a wrap; it gives what they give. */
  lemma {:induction false} JoinedRead(s: Chain, n: nat, m: nat)
    requires MemoryOk(s.memory) && m > 0
    ensures Read(s, n + m).Done? <==> Then(Read(s, n), m).Done? && !CutsAtWrap(PlaceOf(s), n)
    ensures Read(s, n + m).Done? ==> Then(Read(s, n), m) == Read(s, n + m)
    decreases n
  {
    hide *;
    if n == 0 {
      NothingFirst(s, m);
    } else if Piece(s, n).None? {
      FailsSooner(s, n, m);
      FailedFirst(s, m);
    } else if StaysInside(s, n) {
      JoinedInside(s, n, m);
    } else {
      WholePiece(s, n, m);
      JoinedRead(AfterPiece(s, n), n - Piece(s, n).value, m);
      JoinedAfterPiece(s, n, m);
    }
  }

  predicate StaysInside(s: Chain, n: nat) {
    Mapped(s.memory, s.descriptor, 12) && s.offset + n < Length(s.memory, s.descriptor)
  }

  lemma {:induction false} NothingFirst(s: Chain, m: nat)
    ensures Then(Read(s, 0), m) == Read(s, m)
    ensures !CutsAtWrap(PlaceOf(s), 0)
  {
    hide Serves;
    if Read(s, m).Done? { assert [] + Read(s, m).data == Read(s, m).data; }
  }

  lemma {:induction false} FailedFirst(s: Chain, m: nat)
    ensures Then(Failed(s), m) == Failed(s)
  {
  }

  lemma {:induction false} WholePiece(s: Chain, n: nat, m: nat)
    requires MemoryOk(s.memory) && Piece(s, n).Some? && n > 0 && !StaysInside(s, n)
    ensures Piece(s, n + m) == Piece(s, n)
    ensures PieceBytes(s, n + m) == PieceBytes(s, n)
    ensures AfterPiece(s, n + m) == AfterPiece(s, n)
    ensures 0 < Piece(s, n).value <= n
    ensures AfterPiece(s, n).offset == 0
    ensures MemoryOk(AfterPiece(s, n).memory)
  {
  }

  lemma {:induction false} JoinedAfterPiece(s: Chain, n: nat, m: nat)
    requires n > 0 && m > 0 && Piece(s, n).Some? && 0 < Piece(s, n).value <= n
    requires Piece(s, n + m) == Piece(s, n)
    requires PieceBytes(s, n + m) == PieceBytes(s, n)
    requires AfterPiece(s, n + m) == AfterPiece(s, n)
    requires AfterPiece(s, n).offset == 0
    requires var t, k := AfterPiece(s, n), n - Piece(s, n).value;
      && (Read(t, k + m).Done? <==> Then(Read(t, k), m).Done? && !CutsAtWrap(PlaceOf(t), k))
      && (Read(t, k + m).Done? ==> Then(Read(t, k), m) == Read(t, k + m))
    ensures Read(s, n + m).Done? <==> Then(Read(s, n), m).Done? && !CutsAtWrap(PlaceOf(s), n)
    ensures Read(s, n + m).Done? ==> Then(Read(s, n), m) == Read(s, n + m)
  {
    hide *;
    var t, k := AfterPiece(s, n), n - Piece(s, n).value;
    ReadStep(s, n);
    ReadStep(s, n + m);
    ThenPrepend(PieceBytes(s, n), Read(t, k), m);
    PrependChain(PieceBytes(s, n), Read(t, k + m));
    PrependChain(PieceBytes(s, n), Then(Read(t, k), m));
    CutLater(s, n);
  }

  /** The place after a whole descriptor is no wrap, so the cut is at one exactly when the rest of it is. */
  lemma {:induction false} CutLater(s: Chain, n: nat)
    requires n > 0 && Piece(s, n).Some? && 0 < Piece(s, n).value <= n && AfterPiece(s, n).offset == 0
    ensures CutsAtWrap(PlaceOf(s), n) <==> CutsAtWrap(PlaceOf(AfterPiece(s, n)), n - Piece(s, n).value)
  {
    PieceServes(s, n);
    hide Serves, Piece, AfterPiece;
    ServesNothing(PlaceOf(AfterPiece(s, n)));
  }

  lemma {:induction false} ThenPrepend(data: seq<Byte>, r: Outcome, m: nat)
    ensures Then(Prepend(data, r), m) == Prepend(data, Then(r, m))
  {
    if r.Done? { PrependTwice(data, r.data, Read(r.chain, m)); }
  }

  lemma {:induction false} JoinedInside(s: Chain, n: nat, m: nat)
    requires MemoryOk(s.memory) && n > 0 && m > 0 && Piece(s, n).Some? && StaysInside(s, n)
    ensures Read(s, n + m).Done? <==> Then(Read(s, n), m).Done? && !CutsAtWrap(PlaceOf(s), n)
    ensures Read(s, n + m).Done? ==> Then(Read(s, n), m) == Read(s, n + m)
  {
    hide *;
    var t := AfterPiece(s, n);
    InsidePiece(s, n);
    ReadExactly(s, n);
    ThenDone(t, PieceBytes(s, n), m);
    if WrapsAt(PlaceOf(t)) {
      WrapStops(s, n, m);
      FailsSooner(s, n + m, 0);
    } else {
      SplitPiece(s, n, m);
      if Piece(t, m).Some? {
        ReadStep(t, m);
        ReadStep(s, n + m);
        PrependTwice(PieceBytes(s, n), PieceBytes(t, m), Read(AfterPiece(t, m), m - Piece(t, m).value));
      } else {
        FailsSooner(t, m, 0);
        FailsSooner(s, n + m, 0);
        FailedPrepended(PieceBytes(s, n), t);
      }
    }
  }

  lemma {:induction false} FailedPrepended(data: seq<Byte>, t: Chain)
    ensures Prepend(data, Failed(t)) == Failed(t)
  {
  }

  lemma {:induction false} ThenDone(t: Chain, data: seq<Byte>, m: nat)
    ensures Then(Done(t, data), m) == Prepend(data, Read(t, m))
  {
  }

  lemma {:induction false} InsidePiece(s: Chain, n: nat)
    requires n > 0 && Piece(s, n).Some? && StaysInside(s, n)
    ensures Piece(s, n) == Some(n)
    ensures AfterPiece(s, n) == s.(offset := s.offset + n)
    ensures CutsAtWrap(PlaceOf(s), n) <==> WrapsAt(PlaceOf(AfterPiece(s, n)))
  {
    hide WrapsAt;
    assert Serves(PlaceOf(s), n);
    assert Walk(PlaceOf(s), n) == PlaceOf(AfterPiece(s, n));
  }

  /** One access does not run past the last address. */
  lemma {:induction false} WrapStops(s: Chain, n: nat, m: nat)
    requires MemoryOk(s.memory) && n > 0 && m > 0 && Piece(s, n) == Some(n) && StaysInside(s, n)
    requires AfterPiece(s, n) == s.(offset := s.offset + n) && WrapsAt(PlaceOf(AfterPiece(s, n)))
    ensures Piece(s, n + m).None?
  {
    var at := BufferAt(s.memory, s.descriptor, s.offset);
    hide MemoryOk;
    BufferAdvances(s.memory, s.descriptor, s.offset, n);
    NoneAtWords(s.memory);
    assert at + n == WORDS;
  }

  lemma {:induction false} NoneAtWords(m: Memory)
    requires MemoryOk(m)
    ensures WORDS !in m
  {
  }

  /** Buffer addresses go up by n, or n bytes use up the address space. */
  lemma {:induction false} BufferAdvances(m: Memory, d: nat, offset: nat, n: nat)
    requires MemoryOk(m) && Mapped(m, d, 12) && n > 0 && Mapped(m, BufferAt(m, d, offset), n)
    ensures BufferAt(m, d, offset + n) == if BufferAt(m, d, offset) + n == WORDS then 0 else BufferAt(m, d, offset) + n
    ensures BufferAt(m, d, offset) + n <= WORDS
  {
    assert BufferAt(m, d, offset) + n - 1 in m;
  }

  /** A piece that stops short of the descriptor's end, and not at a wrap, taken in two. */
  lemma {:induction false} SplitPiece(s: Chain, n: nat, m: nat)
    requires MemoryOk(s.memory) && n > 0 && m > 0 && Piece(s, n) == Some(n) && StaysInside(s, n)
    requires AfterPiece(s, n) == s.(offset := s.offset + n) && !WrapsAt(PlaceOf(AfterPiece(s, n)))
    ensures var t := AfterPiece(s, n);
      && (Piece(t, m).Some? <==> Piece(s, n + m).Some?)
      && (Piece(t, m).Some? ==>
            && Piece(s, n + m).value == n + Piece(t, m).value
            && PieceBytes(s, n + m) == PieceBytes(s, n) + PieceBytes(t, m)
            && AfterPiece(s, n + m) == AfterPiece(t, m))
  {
    hide *;
    var t := AfterPiece(s, n);
    BufferGoesOn(s, n);
    SplitSize(s, t, n, m);
    if Piece(t, m).Some? {
      SplitBytes(s, t, n, m);
      SplitAfter(s, t, n, m);
    }
  }

  lemma {:induction false} BufferGoesOn(s: Chain, n: nat)
    requires MemoryOk(s.memory) && n > 0 && Piece(s, n) == Some(n)
    requires !WrapsAt(PlaceOf(s.(offset := s.offset + n)))
    ensures Mapped(s.memory, s.descriptor, 12)
    ensures BufferAt(s.memory, s.descriptor, s.offset + n) == BufferAt(s.memory, s.descriptor, s.offset) + n
    ensures Mapped(s.memory, BufferAt(s.memory, s.descriptor, s.offset), n)
  {
    hide MemoryOk;
    BufferAdvances(s.memory, s.descriptor, s.offset, n);
  }

  lemma {:induction false} SplitSize(s: Chain, t: Chain, n: nat, m: nat)
    requires n > 0 && m > 0 && t == s.(offset := s.offset + n) && Piece(s, n) == Some(n) && StaysInside(s, n)
    requires Mapped(s.memory, s.descriptor, 12)
    requires BufferAt(s.memory, s.descriptor, t.offset) == BufferAt(s.memory, s.descriptor, s.offset) + n
    requires Mapped(s.memory, BufferAt(s.memory, s.descriptor, s.offset), n)
    ensures Piece(t, m).Some? <==> Piece(s, n + m).Some?
    ensures Piece(t, m).Some? ==> Piece(s, n + m).value == n + Piece(t, m).value
  {
    var left := Length(s.memory, s.descriptor) - s.offset;
    var chunk := if m < left - n then m else left - n;
    hide MemoryOk, BufferAt, Length, Mapped, Owned;
    MappedSplits(s.memory, BufferAt(s.memory, s.descriptor, s.offset), n, chunk);
  }

  lemma {:induction false} SplitBytes(s: Chain, t: Chain, n: nat, m: nat)
    requires n > 0 && m > 0 && t == s.(offset := s.offset + n) && Piece(s, n) == Some(n)
    requires Mapped(s.memory, s.descriptor, 12)
    requires BufferAt(s.memory, s.descriptor, t.offset) == BufferAt(s.memory, s.descriptor, s.offset) + n
    requires Piece(t, m).Some? && Piece(s, n + m).Some? && Piece(s, n + m).value == n + Piece(t, m).value
    ensures PieceBytes(s, n + m) == PieceBytes(s, n) + PieceBytes(t, m)
  {
    hide MemoryOk, BufferAt, Length, Owned;
  }

  lemma {:induction false} SplitAfter(s: Chain, t: Chain, n: nat, m: nat)
    requires n > 0 && m > 0 && t == s.(offset := s.offset + n) && Piece(s, n) == Some(n)
    requires Mapped(s.memory, s.descriptor, 12)
    requires Piece(t, m).Some? && Piece(s, n + m).Some? && Piece(s, n + m).value == n + Piece(t, m).value
    ensures AfterPiece(s, n + m) == AfterPiece(t, m)
  {
    hide MemoryOk, BufferAt, Length, Owned, Mapped, Piece, Next, EndsFrame;
  }

  lemma {:induction false} MappedSplits(m: Memory, a: nat, n: nat, k: nat)
    ensures Mapped(m, a, n + k) <==> Mapped(m, a, n) && Mapped(m, a + n, k)
  {
    if Mapped(m, a, n) && Mapped(m, a + n, k) {
      forall i | a <= i < a + n + k ensures i in m { if i >= a + n { assert i in m; } }
    }
  }

  lemma {:induction false} ReadExactly(s: Chain, n: nat)
    requires n > 0 && Piece(s, n) == Some(n)
    ensures Read(s, n) == Done(AfterPiece(s, n), PieceBytes(s, n))
  {
    assert PieceBytes(s, n) + [] == PieceBytes(s, n);
  }

  // ----- Choosing the channel -----

  datatype Device = Device(memory: Memory, channels: seq<Channel>, peripheral: nat,
                           channel: nat, descriptor: nat, offset: nat)

  const CHAINS_AT: nat := 0x3FC0_0000

  /** The channel number after a reset. */
  const NO_CHANNEL: nat := 0xFFFF_FFFF

  predicate Selectable(d: Device, i: nat)
    requires i < |d.channels|
  {
    && d.channels[i].peripheral == d.peripheral
    && (d.channels[i].start || (d.channel == i && d.descriptor != 0))
  }

  /** The first channel from `i` on that serves the controller: just started, or in the middle of its chain. */
  function Select(d: Device, i: nat): (r: Option<nat>)
    requires i <= |d.channels|
    ensures r.Some? ==> i <= r.value < |d.channels| && Selectable(d, r.value)
    ensures r.Some? ==> forall k :: i <= k < r.value ==> !Selectable(d, k)
    ensures r.None? ==> forall k :: i <= k < |d.channels| ==> !Selectable(d, k)
    decreases |d.channels| - i
  {
    if i == |d.channels| then None else if Selectable(d, i) then Some(i) else Select(d, i + 1)
  }

  /** The chain a selected channel continues; a start request takes it back to its first descriptor. */
  function ChainOf(d: Device, i: nat): Chain
    requires i < |d.channels|
  {
    var c := d.channels[i];
    if c.start then Chain(d.memory, c.(start := false), CHAINS_AT + c.linkAddress % 0x10_0000, 0)
    else Chain(d.memory, c, d.descriptor, d.offset)
  }

  function WithChain(d: Device, i: nat, s: Chain): Device
    requires i < |d.channels|
  {
    d.(memory := s.memory, channels := d.channels[i := s.channel],
       channel := i, descriptor := s.descriptor, offset := s.offset)
  }

  function Signal(s: Chain): Chain {
    s.(channel := s.channel.(pending := s.channel.raw * s.channel.enabled))
  }

  /** A whole read: the new state, and the bytes if it succeeds. */
  function Transfer(d: Device, size: nat): (Device, Option<seq<Byte>>) {
    match Select(d, 0)
    case None => (d, None)
    case Some(i) =>
      match Read(ChainOf(d, i), size)
      case Done(s, data) => (WithChain(d, i, Signal(s)), Some(data))
      case Failed(s) => (WithChain(d, i, s), None)
  }

  function Quiet(s: Chain, pending: set<nat>): Chain {
    s.(channel := s.channel.(pending := pending))
  }

  function QuietOutcome(r: Outcome, pending: set<nat>): Outcome {
    match r
    case Done(s, data) => Done(Quiet(s, pending), data)
    case Failed(s) => Failed(Quiet(s, pending))
  }

  /** Reading does not look at the interrupt status. */
  lemma {:induction false} ReadIgnoresPending(s: Chain, size: nat, pending: set<nat>)
    ensures Read(Quiet(s, pending), size) == QuietOutcome(Read(s, size), pending)
    decreases size
  {
    hide *;
    PieceIgnoresPending(s, size, pending);
    if size == 0 {
      ReadNothing(s);
      ReadNothing(Quiet(s, pending));
      QuietDone(s, [], pending);
    } else if Piece(s, size).None? {
      FailsSooner(s, size, 0);
      FailsSooner(Quiet(s, pending), size, 0);
      QuietFailed(s, pending);
    } else {
      var t, left := AfterPiece(s, size), size - Piece(s, size).value;
      ReadStep(s, size);
      ReadStep(Quiet(s, pending), size);
      ReadIgnoresPending(t, left, pending);
      QuietPrepend(PieceBytes(s, size), Read(t, left), pending);
    }
  }

  lemma {:induction false} QuietDone(s: Chain, data: seq<Byte>, pending: set<nat>)
    ensures QuietOutcome(Done(s, data), pending) == Done(Quiet(s, pending), data)
  {
  }

  lemma {:induction false} QuietFailed(s: Chain, pending: set<nat>)
    ensures QuietOutcome(Failed(s), pending) == Failed(Quiet(s, pending))
  {
  }

  lemma {:induction false} QuietPrepend(data: seq<Byte>, r: Outcome, pending: set<nat>)
    ensures QuietOutcome(Prepend(data, r), pending) == Prepend(data, QuietOutcome(r, pending))
  {
  }

  lemma {:induction false} PieceIgnoresPending(s: Chain, size: nat, pending: set<nat>)
    ensures Piece(Quiet(s, pending), size) == Piece(s, size)
    ensures Piece(s, size).Some? ==> PieceBytes(Quiet(s, pending), size) == PieceBytes(s, size)
    ensures Piece(s, size).Some? ==> AfterPiece(Quiet(s, pending), size) == Quiet(AfterPiece(s, size), pending)
  {
  }

  lemma {:induction false} ReadKeepsChannel(s: Chain, size: nat)
    ensures Read(s, size).chain.channel.peripheral == s.channel.peripheral
    ensures Read(s, size).chain.channel.start == s.channel.start
    decreases size
  {
    if size > 0 && Piece(s, size).Some? { ReadKeepsChannel(AfterPiece(s, size), size - Piece(s, size).value); }
  }

  // ----- A transfer in two goes -----

  /** Two transfers, the bytes of both together. */
  function TwoTransfers(d: Device, n: nat, m: nat): (Device, Option<seq<Byte>>) {
    var (d1, r1) := Transfer(d, n);
    if r1.None? then (d1, None)
    else
      var (d2, r2) := Transfer(d1, m);
      (d2, if r2.None? then None else Some(r1.value + r2.value))
  }

  /** Two transfers end like the one long transfer: same bytes, position, hand-backs, history and interrupts. */
  predicate SplitInvisible(d: Device, n: nat, m: nat) {
    && (TwoTransfers(d, n, m).1.Some? <==> Transfer(d, n + m).1.Some?)
    && (Transfer(d, n + m).1.Some? ==> TwoTransfers(d, n, m) == Transfer(d, n + m))
  }

  /** The channel is bound to the controller and has a start request that is not taken up. */
  predicate Started(d: Device, i: nat)
    requires i < |d.channels|
  {
    d.channels[i].peripheral == d.peripheral && d.channels[i].start
  }

  /** The first started channel from `i` on. */
  function NextStarted(d: Device, i: nat): (r: Option<nat>)
    requires i <= |d.channels|
    ensures r.Some? ==> i <= r.value < |d.channels| && Started(d, r.value)
    ensures r.Some? ==> forall k :: i <= k < r.value ==> !Started(d, k)
    ensures r.None? ==> forall k :: i <= k < |d.channels| ==> !Started(d, k)
    decreases |d.channels| - i
  {
    if i == |d.channels| then None else if Started(d, i) then Some(i) else NextStarted(d, i + 1)
  }

  /** Another started channel has a chain that serves `m` bytes from the memory the first transfer leaves. */
  predicate OtherServes(d: Device, i: nat, memory: Memory, m: nat)
    requires i < |d.channels|
  {
    match NextStarted(d, i + 1)
    case None => false
    case Some(j) => Serves(PlaceOf(ChainOf(d, j)).(memory := memory), m)
  }

  /**
    What makes a cut visible, in terms of the state before both transfers. After n bytes of the selected channel's chain
    - a buffer starts again from address 0, and the chain serves the other m bytes from there; or
    - the chain is at descriptor 0, so it is no longer selected, although what stands at address 0 serves the other m
      bytes; or so that a later channel with a start request is selected instead, and its chain serves them.
   */
  predicate SplitShows(d: Device, n: nat, m: nat) {
    match Select(d, 0)
    case None => false
    case Some(i) =>
      var p := PlaceOf(ChainOf(d, i));
      Serves(p, n) &&
      var q := Walk(p, n);
      if q.descriptor != 0 then WrapsAt(q) && Serves(q, m)
      else (!WrapsAt(q) && Serves(q, m)) || OtherServes(d, i, q.memory, m)
  }

  lemma {:induction false} TransferOn(d: Device, i: nat, size: nat)
    requires Select(d, 0) == Some(i)
    ensures var r := Read(ChainOf(d, i), size);
      Transfer(d, size) == if r.Done? then (WithChain(d, i, Signal(r.chain)), Some(r.data))
                           else (WithChain(d, i, r.chain), None)
  {
    hide Read, Select, ChainOf, WithChain, Signal;
  }

  lemma {:induction false} NothingSelected(d: Device, n: nat, m: nat)
    requires Select(d, 0).None?
    ensures SplitInvisible(d, n, m) && !SplitShows(d, n, m)
  {
    hide Read, Select, Serves;
  }

  lemma {:induction false} FirstFails(d: Device, i: nat, n: nat, m: nat)
    requires Select(d, 0) == Some(i) && !Serves(PlaceOf(ChainOf(d, i)), n)
    requires Read(ChainOf(d, i), n).Failed? && Read(ChainOf(d, i), n + m).Failed?
    ensures SplitInvisible(d, n, m) && !SplitShows(d, n, m)
  {
    hide Read, Select, Serves, ChainOf, Walk, PlaceOf;
  }

  /** The channel in the middle of its chain is the one selected again. */
  lemma {:induction false} SelectedAgain(d: Device, i: nat, s: Chain)
    requires Select(d, 0) == Some(i) && s.channel.peripheral == d.peripheral && !s.channel.start && s.descriptor != 0
    ensures Select(WithChain(d, i, s), 0) == Some(i)
    ensures ChainOf(WithChain(d, i, s), i) == s
  {
    var e := WithChain(d, i, s);
    assert Selectable(e, i);
    forall k | 0 <= k < i
      ensures !Selectable(e, k)
    {
      assert !Selectable(d, k);
    }
    assert Select(e, 0).Some?;
  }

  /** At the end of its chain the channel waits for a start request; only another one with such a request can follow. */
  lemma {:induction false} SelectedNext(d: Device, i: nat, s: Chain)
    requires Select(d, 0) == Some(i) && !s.channel.start && s.descriptor == 0
    ensures Select(WithChain(d, i, s), 0) == NextStarted(d, i + 1)
  {
    var e := WithChain(d, i, s);
    assert !Selectable(e, i);
    forall k | 0 <= k < |d.channels| && k != i
      ensures Selectable(e, k) <==> Started(d, k)
    {
      assert e.channels[k] == d.channels[k];
    }
    forall k | 0 <= k < i
      ensures !Selectable(e, k)
    {
      assert !Selectable(d, k);
    }
    SelectFrom(e, 0, i + 1);
    SelectStarted(d, e, i + 1);
  }

  lemma {:induction false} SelectFrom(d: Device, i: nat, j: nat)
    requires i <= j <= |d.channels| && forall k :: i <= k < j ==> !Selectable(d, k)
    ensures Select(d, i) == Select(d, j)
    decreases j - i
  {
    if i < j {
      assert !Selectable(d, i);
      SelectFrom(d, i + 1, j);
    }
  }

  lemma {:induction false} SelectStarted(d: Device, e: Device, i: nat)
    requires |d.channels| == |e.channels| && i <= |d.channels|
    requires forall k :: i <= k < |d.channels| ==> (Selectable(e, k) <==> Started(d, k))
    ensures Select(e, i) == NextStarted(d, i)
    decreases |d.channels| - i
  {
    if i < |d.channels| {
      assert Selectable(e, i) <==> Started(d, i);
      SelectStarted(d, e, i + 1);
    }
  }

  /** The chain as the reads see it belongs to the controller and its start request is taken. */
  lemma {:induction false} TakenUp(d: Device, i: nat)
    requires Select(d, 0) == Some(i)
    ensures ChainOf(d, i).memory == d.memory
    ensures ChainOf(d, i).channel.peripheral == d.peripheral
    ensures !ChainOf(d, i).channel.start
  {
    hide Select;
    assert Selectable(d, i);
  }

  /** While the chain goes on, two transfers are two reads of it. */
  lemma {:induction false} TransferTwice(d: Device, i: nat, n: nat, m: nat)
    requires Select(d, 0) == Some(i)
    requires Read(ChainOf(d, i), n).Done? && Read(ChainOf(d, i), n).chain.descriptor != 0
    ensures var r := Then(Read(ChainOf(d, i), n), m);
      && (TwoTransfers(d, n, m).1.Some? <==> r.Done?)
      && (r.Done? ==> TwoTransfers(d, n, m) == (WithChain(d, i, Signal(r.chain)), Some(r.data)))
  {
    hide *;
    var t, data := Read(ChainOf(d, i), n).chain, Read(ChainOf(d, i), n).data;
    var d1 := WithChain(d, i, Signal(t));
    TakenUp(d, i);
    ReadKeepsChannel(ChainOf(d, i), n);
    SignalKeeps(t);
    TransferOn(d, i, n);
    SelectedAgain(d, i, Signal(t));
    TransferOn(d1, i, m);
    ReadIgnoresPending(t, m, t.channel.raw * t.channel.enabled);
    SignalsOnce(d, i, t, data, m);
    BothTransfers(d, n, m, d1, data);
  }

  lemma {:induction false} SignalKeeps(s: Chain)
    ensures Signal(s) == Quiet(s, s.channel.raw * s.channel.enabled)
    ensures Signal(s).channel.peripheral == s.channel.peripheral
    ensures Signal(s).channel.start == s.channel.start
    ensures Signal(s).descriptor == s.descriptor
    ensures Signal(s).memory == s.memory
  {
  }

  lemma {:induction false} BothTransfers(d: Device, n: nat, m: nat, d1: Device, data: seq<Byte>)
    requires Transfer(d, n) == (d1, Some(data))
    ensures var (d2, r2) := Transfer(d1, m);
      TwoTransfers(d, n, m) == (d2, if r2.None? then None else Some(data + r2.value))
  {
    hide Transfer;
  }

  /** Interrupts are signalled from all that was raised, so signalling in between leaves nothing behind. */
  lemma {:induction false} SignalsOnce(d: Device, i: nat, t: Chain, data: seq<Byte>, m: nat)
    requires i < |d.channels|
    requires Read(Signal(t), m) == QuietOutcome(Read(t, m), t.channel.raw * t.channel.enabled)
    ensures var d1, r := WithChain(d, i, Signal(t)), Read(Signal(t), m);
      && (r.Done? <==> Then(Done(t, data), m).Done?)
      && (r.Done? ==> WithChain(d1, i, Signal(r.chain)) == WithChain(d, i, Signal(Then(Done(t, data), m).chain)))
      && (r.Done? ==> data + r.data == Then(Done(t, data), m).data)
  {
    hide Read;
  }

  /** With the chain still going on, the cut shows only at a wrap that two reads get across. */
  lemma {:induction false} ChainGoesOn(d: Device, i: nat, n: nat, m: nat)
    requires Select(d, 0) == Some(i) && n > 0
    requires var s := ChainOf(d, i);
      && Serves(PlaceOf(s), n)
      && Walk(PlaceOf(s), n).descriptor != 0
      && Read(s, n).Done?
      && PlaceOf(Read(s, n).chain) == Walk(PlaceOf(s), n)
      && (Then(Read(s, n), m).Done? <==> Serves(Walk(PlaceOf(s), n), m))
      && (Read(s, n + m).Done? <==> Then(Read(s, n), m).Done? && !CutsAtWrap(PlaceOf(s), n))
      && (Read(s, n + m).Done? ==> Then(Read(s, n), m) == Read(s, n + m))
    ensures SplitInvisible(d, n, m) <==> !SplitShows(d, n, m)
  {
    hide Read, Select, Serves, ChainOf, Walk, Then, TwoTransfers, Transfer, WithChain, Signal, WrapsAt;
    TransferTwice(d, i, n, m);
    TransferOn(d, i, n + m);
  }

  /** With the chain at descriptor 0, the second transfer is another channel's or fails. */
  lemma {:induction false} TransferAfterEnd(d: Device, i: nat, n: nat, m: nat)
    requires Select(d, 0) == Some(i) && Read(ChainOf(d, i), n).Done? && Read(ChainOf(d, i), n).chain.descriptor == 0
    ensures TwoTransfers(d, n, m).1.Some? <==> OtherServes(d, i, Read(ChainOf(d, i), n).chain.memory, m)
    ensures TwoTransfers(d, n, m).1.Some? ==> TwoTransfers(d, n, m).0.channel != i
  {
    hide *;
    var t, data := Read(ChainOf(d, i), n).chain, Read(ChainOf(d, i), n).data;
    var d1 := WithChain(d, i, Signal(t));
    TakenUp(d, i);
    ReadKeepsChannel(ChainOf(d, i), n);
    SignalKeeps(t);
    TransferOn(d, i, n);
    SelectedNext(d, i, Signal(t));
    BothTransfers(d, n, m, d1, data);
    OtherChain(d, i, Signal(t), m);
    if NextStarted(d, i + 1).Some? {
      var j := NextStarted(d, i + 1).value;
      TransferOn(d1, j, m);
      ReadServes(ChainOf(d1, j), m);
      OnChannel(d1, j, Signal(Read(ChainOf(d1, j), m).chain));
    } else {
      NothingTransferred(d1, m);
    }
  }

  lemma {:induction false} NothingTransferred(d: Device, m: nat)
    requires Select(d, 0).None?
    ensures Transfer(d, m) == (d, None)
  {
    hide Select;
  }

  lemma {:induction false} OnChannel(d: Device, i: nat, s: Chain)
    requires i < |d.channels|
    ensures WithChain(d, i, s).channel == i
  {
  }

  /** The other channel's chain is not touched by the first transfer, except through memory. */
  lemma {:induction false} OtherChain(d: Device, i: nat, s: Chain, m: nat)
    requires i < |d.channels|
    ensures |WithChain(d, i, s).channels| == |d.channels|
    ensures NextStarted(d, i + 1).None? ==> !OtherServes(d, i, s.memory, m)
    ensures NextStarted(d, i + 1).Some? ==>
      var j := NextStarted(d, i + 1).value;
      && i < j < |d.channels|
      && (OtherServes(d, i, s.memory, m) <==> Serves(PlaceOf(ChainOf(WithChain(d, i, s), j)), m))
  {
    hide Serves, NextStarted;
  }

  lemma {:induction false} ChainEnded(d: Device, i: nat, n: nat, m: nat)
    requires Select(d, 0) == Some(i) && n > 0
    requires var s := ChainOf(d, i);
      && Serves(PlaceOf(s), n)
      && Walk(PlaceOf(s), n).descriptor == 0
      && Read(s, n).Done?
      && PlaceOf(Read(s, n).chain) == Walk(PlaceOf(s), n)
      && (Then(Read(s, n), m).Done? <==> Serves(Walk(PlaceOf(s), n), m))
      && (Read(s, n + m).Done? <==> Then(Read(s, n), m).Done? && !CutsAtWrap(PlaceOf(s), n))
    ensures SplitInvisible(d, n, m) <==> !SplitShows(d, n, m)
  {
    hide Read, Select, Serves, ChainOf, Walk, Then, TwoTransfers, Transfer, WithChain, Signal, WrapsAt, OtherServes;
    TransferAfterEnd(d, i, n, m);
    TransferOn(d, i, n + m);
    OnChannel(d, i, Signal(Read(ChainOf(d, i), n + m).chain));
  }

  /** One transfer may be cut in two without a trace exactly when nothing of the above comes together. */
  lemma {:induction false} TransferSplits(d: Device, n: nat, m: nat)
    requires MemoryOk(d.memory) && n > 0 && m > 0
    ensures SplitInvisible(d, n, m) <==> !SplitShows(d, n, m)
  {
    hide *;
    match Select(d, 0) {
      case None =>
        NothingSelected(d, n, m);
      case Some(i) =>
        var s := ChainOf(d, i);
        TakenUp(d, i);
        ReadServes(s, n);
        JoinedRead(s, n, m);
        if !Serves(PlaceOf(s), n) {
          FailedFirst(Read(s, n).chain, m);
          FirstFails(d, i, n, m);
        } else {
          ThenServes(s, n, m);
          if Walk(PlaceOf(s), n).descriptor != 0 {
            ChainGoesOn(d, i, n, m);
          } else {
            ChainEnded(d, i, n, m);
          }
        }
    }
  }

  lemma {:induction false} OneByteDescriptor(s: Chain, size: nat)
    requires Mapped(s.memory, s.descriptor, 12) && Length(s.memory, s.descriptor) == 1
    requires s.offset == 0 && !s.channel.checkOwner && size > 0
    requires Mapped(s.memory, BufferAt(s.memory, s.descriptor, 0), 1)
    ensures Piece(s, size) == Some(1) && AfterPiece(s, size) == Finish(s)
  {
  }

  function SparseByte(a: nat): Byte {
    if a == 1 || a == CHAINS_AT + 1 then 16 else 0
  }

  /** Two descriptors of one byte, at the start of the chain and at address 0. */
  function SparseMemory(): Memory {
    (map a: nat | 0 <= a < 13 :: SparseByte(a)) + (map a: nat | CHAINS_AT <= a < CHAINS_AT + 12 :: SparseByte(a))
  }

  lemma {:induction false} SparseHas(a: nat)
    requires a < 13 || CHAINS_AT <= a < CHAINS_AT + 12
    ensures a in SparseMemory()
    ensures SparseMemory()[a] == if a == 1 || a == CHAINS_AT + 1 then 16 else 0
  {
  }

  lemma {:induction false} SparseOk()
    ensures MemoryOk(SparseMemory())
  {
  }

  lemma {:induction false} SparseDescriptor(d: nat)
    requires d == 0 || d == CHAINS_AT
    ensures Mapped(SparseMemory(), d, 12) && Mapped(SparseMemory(), 0, 1)
    ensures Length(SparseMemory(), d) == 1
    ensures Next(SparseMemory(), d) == 0
    ensures BufferAt(SparseMemory(), d, 0) == 0
  {
    hide SparseMemory, SparseByte, Mapped, Word, Length, Next, BufferAt;
    var m := SparseMemory();
    SparseMapped(d, 12);
    SparseMapped(0, 1);
    SparseHas(d + 1);
    SparseHas(d + 2);
    SparseZeros(d + 4);
    SparseZeros(d + 8);
    OneByteWords(m, d);
  }

  lemma {:induction false} SparseMapped(d: nat, n: nat)
    requires d + n <= 13 || (CHAINS_AT <= d && d + n <= CHAINS_AT + 12)
    ensures Mapped(SparseMemory(), d, n)
  {
    hide SparseMemory;
    forall a | d <= a < d + n
      ensures a in SparseMemory()
    {
      SparseHas(a);
    }
  }

  lemma {:induction false} SparseZeros(d: nat)
    requires d == 4 || d == 8 || d == CHAINS_AT + 4 || d == CHAINS_AT + 8
    ensures Mapped(SparseMemory(), d, 4) && Word(SparseMemory(), d) == 0
  {
    hide SparseMemory, SparseByte, Mapped, Word, Length, Next, BufferAt;
    SparseMapped(d, 4);
    SparseHas(d);
    SparseHas(d + 1);
    SparseHas(d + 2);
    SparseHas(d + 3);
    ZeroWord(SparseMemory(), d);
  }

  lemma {:induction false} ZeroWord(m: Memory, a: nat)
    requires Mapped(m, a, 4) && m[a] == 0 && m[a + 1] == 0 && m[a + 2] == 0 && m[a + 3] == 0
    ensures Word(m, a) == 0
  {
  }

  lemma {:induction false} OneByteWords(m: Memory, d: nat)
    requires Mapped(m, d, 12) && Mapped(m, d + 4, 4) && Mapped(m, d + 8, 4)
    requires d + 1 in m && d + 2 in m && m[d + 1] == 16 && m[d + 2] == 0
    requires Word(m, d + 4) == 0 && Word(m, d + 8) == 0
    ensures Length(m, d) == 1
    ensures Next(m, d) == 0
    ensures BufferAt(m, d, 0) == 0
  {
    hide Word;
  }

  lemma {:induction false} FinishUntouched(s: Chain)
    requires Mapped(s.memory, s.descriptor, 12) && Next(s.memory, s.descriptor) == 0
    requires !s.channel.writeBack && !s.channel.checkOwner
    ensures Finish(s).memory == s.memory
    ensures Finish(s).descriptor == 0
    ensures Finish(s).offset == 0
    ensures !Finish(s).channel.checkOwner
  {
  }

  lemma {:induction false} SparseReads(s: Chain)
    requires s.memory == SparseMemory() && s.descriptor == CHAINS_AT && s.offset == 0
    requires !s.channel.checkOwner && !s.channel.writeBack
    ensures Read(s, 1).Done?
    ensures Read(s, 1).chain.descriptor == 0
    ensures Read(s, 1).chain.offset == 0
    ensures Read(s, 2).Done?
  {
    hide *;
    SparseDescriptor(0);
    SparseDescriptor(CHAINS_AT);
    FinishUntouched(s);
    OneByteDescriptor(s, 1);
    OneByteDescriptor(s, 2);
    OneByteDescriptor(Finish(s), 1);
    ReadExactly(s, 1);
    ReadExactly(Finish(s), 1);
    ReadStep(s, 2);
    PrependChain(PieceBytes(s, 2), Read(Finish(s), 1));
  }

  /** A channel in the middle of the chain of those two descriptors. */
  function SparseDevice(): Device {
    var c := Channel(0, false, 0, false, false, false, 0, 0, 0, 0, 0, {}, {}, {});
    Device(SparseMemory(), [c], 0, 0, CHAINS_AT, 0)
  }

  lemma {:induction false} SparseSelected(d: Device)
    requires d == SparseDevice()
    ensures d.memory == SparseMemory()
    ensures Select(d, 0) == Some(0) && |d.channels| > 0
    ensures ChainOf(d, 0) == Chain(SparseMemory(), d.channels[0], CHAINS_AT, 0)
    ensures !d.channels[0].checkOwner && !d.channels[0].writeBack
  {
    hide SparseMemory;
  }

  /** What makes a cut visible when the chain has ended at it and goes on through address 0. */
  lemma {:induction false} EndShows(d: Device, i: nat, n: nat, m: nat)
    requires Select(d, 0) == Some(i)
    requires var p := PlaceOf(ChainOf(d, i));
      && Serves(p, n)
      && Walk(p, n).descriptor == 0
      && Walk(p, n).offset == 0
      && Serves(Walk(p, n), m)
    ensures SplitShows(d, n, m)
  {
    hide Select, ChainOf, PlaceOf, Serves, Walk, OtherServes;
  }

  lemma {:induction false} SamePlace(s: Chain)
    ensures PlaceOf(s).memory == s.memory && PlaceOf(s).descriptor == s.descriptor && PlaceOf(s).offset == s.offset
  {
  }

  /** Memory at address 0 that looks like a descriptor makes the difference visible. */
  lemma {:induction false} ChainThroughZero()
    ensures MemoryOk(SparseDevice().memory)
    ensures !SplitInvisible(SparseDevice(), 1, 1)
  {
    hide *;
    var d := SparseDevice();
    SparseSelected(d);
    SparseOk();
    var s := ChainOf(d, 0);
    SparseReads(s);
    ReadServes(s, 1);
    SamePlace(Read(s, 1).chain);
    JoinedRead(s, 1, 1);
    ThenServes(s, 1, 1);
    EndShows(d, 0, 1, 1);
    TransferSplits(d, 1, 1);
  }

  // ----- The chain as one flat stream -----

  /** Byte `k` of the stream that starts at an offset into a descriptor's buffer and goes on through the chain. */
  function StreamByte(m: Memory, d: nat, offset: nat, k: nat): Option<Byte>
    decreases k
  {
    if !Mapped(m, d, 12) || Length(m, d) <= offset then None
    else if k >= Length(m, d) - offset then StreamByte(m, Next(m, d), 0, k - (Length(m, d) - offset))
    else if BufferAt(m, d, offset) + k in m then Some(m[BufferAt(m, d, offset) + k])
    else None
  }

  /** Equal but for the marked bytes. */
  predicate SameBut(m: Memory, other: Memory, marked: set<nat>) {
    && m.Keys == other.Keys
    && (forall a :: a in m && a !in marked ==> m[a] == other[a])
  }

  /** Handing back writes only marked bytes, and the next `size` bytes and their descriptors have no others. */
  predicate Undisturbed(m: Memory, d: nat, offset: nat, size: nat, writeBack: bool, marked: set<nat>)
    decreases size
  {
    size > 0 && Mapped(m, d, 12) ==>
      && (writeBack ==> d + 3 in marked)
      && (forall j :: d <= j < d + 12 && j in marked ==> j == d + 3)
      && (Length(m, d) > offset ==>
         var piece := if size < Length(m, d) - offset then size else Length(m, d) - offset;
         var at := BufferAt(m, d, offset);
         && (forall j :: at <= j < at + piece ==> j !in marked)
         && Undisturbed(m, Next(m, d), 0, size - piece, writeBack, marked))
  }

  lemma {:induction false} SameDescriptor(m: Memory, other: Memory, d: nat, offset: nat, marked: set<nat>)
    requires SameBut(m, other, marked) && Mapped(m, d, 12) && forall j :: d <= j < d + 12 && j in marked ==> j == d + 3
    ensures Mapped(other, d, 12)
    ensures Length(m, d) == Length(other, d)
    ensures Next(m, d) == Next(other, d)
    ensures BufferAt(m, d, offset) == BufferAt(other, d, offset)
  {
    forall j | d <= j < d + 12 && j != d + 3 ensures j in m && j in other && m[j] == other[j] {}
    assert m[d + 4] == other[d + 4] && m[d + 5] == other[d + 5] && m[d + 6] == other[d + 6] && m[d + 7] == other[d + 7];
    assert m[d + 8] == other[d + 8] && m[d + 9] == other[d + 9];
    assert m[d + 10] == other[d + 10] && m[d + 11] == other[d + 11];
    assert m[d + 1] == other[d + 1] && m[d + 2] == other[d + 2];
  }

  /** The bytes read are the next ones of the stream laid out in the original memory. */
  lemma {:induction false} ReadsStream(s: Chain, size: nat, original: Memory, marked: set<nat>)
    requires SameBut(original, s.memory, marked) && Read(s, size).Done?
    requires Undisturbed(original, s.descriptor, s.offset, size, s.channel.writeBack, marked)
    ensures |Read(s, size).data| == size
    ensures forall k :: 0 <= k < size ==> StreamByte(original, s.descriptor, s.offset, k) == Some(Read(s, size).data[k])
    decreases size
  {
    hide *;
    if size > 0 {
      var t, rest := AfterStreamPiece(s, size, original, marked);
      ReadsStream(t, size - Piece(s, size).value, original, marked);
      JoinStream(s, size, original, PieceBytes(s, size), t, rest);
    } else {
      ReadNothing(s);
    }
  }

  lemma {:induction false} AfterStreamPiece(s: Chain, size: nat, original: Memory, marked: set<nat>)
    returns (t: Chain, rest: seq<Byte>)
    requires SameBut(original, s.memory, marked) && size > 0 && Read(s, size).Done?
    requires Undisturbed(original, s.descriptor, s.offset, size, s.channel.writeBack, marked)
    ensures Piece(s, size).Some?
    ensures 0 < Piece(s, size).value <= size
    ensures |PieceBytes(s, size)| == Piece(s, size).value
    ensures t == AfterPiece(s, size)
    ensures var piece := Piece(s, size).value;
      && Read(t, size - piece).Done?
      && rest == Read(t, size - piece).data
      && Read(s, size).data == PieceBytes(s, size) + rest
      && SameBut(original, t.memory, marked)
      && Undisturbed(original, t.descriptor, t.offset, size - piece, t.channel.writeBack, marked)
      && (forall k :: 0 <= k < piece ==>
            StreamByte(original, s.descriptor, s.offset, k) == Some(PieceBytes(s, size)[k]))
      && (forall k :: piece <= k < size ==>
            StreamByte(original, s.descriptor, s.offset, k) ==
            StreamByte(original, t.descriptor, t.offset, k - piece))
  {
    ReadStep(s, size);
    t := AfterPiece(s, size);
    rest := Read(t, size - Piece(s, size).value).data;
    hide Piece, PieceBytes, AfterPiece, Undisturbed, StreamByte, SameBut, Read;
    StreamPiece(s, size, original, marked);
  }

  lemma {:induction false} JoinStream(s: Chain, size: nat, original: Memory,
                                      first: seq<Byte>, t: Chain, rest: seq<Byte>)
    requires |first| + |rest| == size
    requires forall k :: 0 <= k < |first| ==> StreamByte(original, s.descriptor, s.offset, k) == Some(first[k])
    requires forall k :: |first| <= k < size ==>
      StreamByte(original, s.descriptor, s.offset, k) == StreamByte(original, t.descriptor, t.offset, k - |first|)
    requires forall k :: 0 <= k < |rest| ==> StreamByte(original, t.descriptor, t.offset, k) == Some(rest[k])
    ensures forall k :: 0 <= k < size ==> StreamByte(original, s.descriptor, s.offset, k) == Some((first + rest)[k])
  {
    hide *;
    forall k | 0 <= k < size
      ensures StreamByte(original, s.descriptor, s.offset, k) == Some((first + rest)[k])
    {
      if k >= |first| { assert StreamByte(original, t.descriptor, t.offset, k - |first|) == Some(rest[k - |first|]); }
    }
  }

  lemma {:induction false} StreamPiece(s: Chain, size: nat, original: Memory, marked: set<nat>)
    requires SameBut(original, s.memory, marked) && size > 0 && Piece(s, size).Some?
    requires Undisturbed(original, s.descriptor, s.offset, size, s.channel.writeBack, marked)
    ensures var t, piece := AfterPiece(s, size), Piece(s, size).value;
      && 0 < piece <= size
      && |PieceBytes(s, size)| == piece
      && SameBut(original, t.memory, marked)
      && Undisturbed(original, t.descriptor, t.offset, size - piece, t.channel.writeBack, marked)
      && (forall k :: 0 <= k < piece ==>
            StreamByte(original, s.descriptor, s.offset, k) == Some(PieceBytes(s, size)[k]))
      && (forall k :: piece <= k < size ==>
            StreamByte(original, s.descriptor, s.offset, k) ==
            StreamByte(original, t.descriptor, t.offset, k - piece))
  {
    hide *;
    PieceInOriginal(s, size, original, marked);
    PieceStream(s, size, original, marked);
    AfterStream(s, size, original, marked);
  }

  predicate Holds(m: Memory, at: nat, data: seq<Byte>) {
    forall k :: 0 <= k < |data| ==> at + k in m && m[at + k] == data[k]
  }

  /** The piece seen from the original memory: same descriptor, and buffer bytes that hand-backs leave alone. */
  lemma {:induction false} PieceInOriginal(s: Chain, size: nat, original: Memory, marked: set<nat>)
    requires SameBut(original, s.memory, marked) && size > 0 && Piece(s, size).Some?
    requires Undisturbed(original, s.descriptor, s.offset, size, s.channel.writeBack, marked)
    ensures Mapped(original, s.descriptor, 12) && Mapped(s.memory, s.descriptor, 12)
    ensures Length(original, s.descriptor) == Length(s.memory, s.descriptor) > s.offset
    ensures Next(original, s.descriptor) == Next(s.memory, s.descriptor)
    ensures var left := Length(original, s.descriptor) - s.offset;
      Piece(s, size).value == if size < left then size else left
    ensures |PieceBytes(s, size)| == Piece(s, size).value
    ensures Holds(original, BufferAt(original, s.descriptor, s.offset), PieceBytes(s, size))
  {
    var d, m, piece := s.descriptor, s.memory, Piece(s, size).value;
    assert Mapped(original, d, 12);
    SameDescriptor(original, m, d, s.offset, marked);
    hide Length, Next, BufferAt;
    var at := BufferAt(original, d, s.offset);
    forall k | 0 <= k < piece
      ensures at + k in original && original[at + k] == PieceBytes(s, size)[k]
    {
      assert at + k in m && at + k !in marked;
    }
  }

  lemma {:induction false} PieceStream(s: Chain, size: nat, original: Memory, marked: set<nat>)
    requires Piece(s, size).Some? && Mapped(original, s.descriptor, 12)
    requires Piece(s, size).value <= Length(original, s.descriptor) - s.offset
    requires Length(original, s.descriptor) > s.offset
    requires |PieceBytes(s, size)| == Piece(s, size).value
    requires Holds(original, BufferAt(original, s.descriptor, s.offset), PieceBytes(s, size))
    ensures forall k :: 0 <= k < Piece(s, size).value ==>
      StreamByte(original, s.descriptor, s.offset, k) == Some(PieceBytes(s, size)[k])
  {
    hide Piece, PieceBytes, Length, BufferAt, Next, Mapped;
    forall k | 0 <= k < Piece(s, size).value
      ensures StreamByte(original, s.descriptor, s.offset, k) == Some(PieceBytes(s, size)[k])
    {
    }
  }

  lemma {:induction false} AfterStream(s: Chain, size: nat, original: Memory, marked: set<nat>)
    requires SameBut(original, s.memory, marked) && size > 0 && Piece(s, size).Some?
    requires Undisturbed(original, s.descriptor, s.offset, size, s.channel.writeBack, marked)
    requires Mapped(original, s.descriptor, 12) && Mapped(s.memory, s.descriptor, 12)
    requires Length(original, s.descriptor) == Length(s.memory, s.descriptor) > s.offset
    requires Next(original, s.descriptor) == Next(s.memory, s.descriptor)
    requires var left := Length(original, s.descriptor) - s.offset;
      Piece(s, size).value == if size < left then size else left
    ensures var t, piece := AfterPiece(s, size), Piece(s, size).value;
      && SameBut(original, t.memory, marked)
      && Undisturbed(original, t.descriptor, t.offset, size - piece, t.channel.writeBack, marked)
      && (forall k :: piece <= k < size ==>
            StreamByte(original, s.descriptor, s.offset, k) ==
            StreamByte(original, t.descriptor, t.offset, k - piece))
  {
    hide Piece, Length, Next, BufferAt;
    if size < Length(original, s.descriptor) - s.offset {
      assert AfterPiece(s, size) == s.(offset := s.offset + size);
    } else {
      assert AfterPiece(s, size) == Finish(s);
      StreamGoesOn(original, s.descriptor, s.offset);
    }
  }

  lemma {:induction false} StreamGoesOn(m: Memory, d: nat, offset: nat)
    requires Mapped(m, d, 12) && Length(m, d) > offset
    ensures forall k :: k >= Length(m, d) - offset ==>
      StreamByte(m, d, offset, k) == StreamByte(m, Next(m, d), 0, k - (Length(m, d) - offset))
  {
    hide Length, Next, BufferAt, Mapped;
  }

  /** When nothing is handed back, memory does not change, and the bytes read are simply the stream. */
  lemma {:induction false} ReadsStreamUntouched(s: Chain, size: nat)
    requires Read(s, size).Done? && !s.channel.writeBack
    ensures |Read(s, size).data| == size
    ensures forall k :: 0 <= k < size ==> StreamByte(s.memory, s.descriptor, s.offset, k) == Some(Read(s, size).data[k])
  {
    NothingMarked(s.memory, s.descriptor, s.offset, size);
    ReadsStream(s, size, s.memory, {});
  }

  lemma {:induction false} NothingMarked(m: Memory, d: nat, offset: nat, size: nat)
    ensures Undisturbed(m, d, offset, size, false, {})
    decreases size
  {
    if size > 0 && Mapped(m, d, 12) && Length(m, d) > offset {
      NothingMarked(m, Next(m, d), 0, size - (if size < Length(m, d) - offset then size else Length(m, d) - offset));
    }
  }
}
