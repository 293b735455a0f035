/** Unsigned bytes as bounded integers, little-endian words of them, and the bit operations on device flags. */
module Bits {
  type Byte = x: int | 0 <= x < 256

  type Bytes = seq<Byte>

  datatype Option<+T> = None | Some(value: T)

  // ----- Little-endian 16-bit words -----

  function Le16(v: nat): (b: Bytes)
    requires v < 0x10000
    ensures |b| == 2
  {
    [v % 256, v / 256]
  }

  function ReadLe16(b: Bytes): (v: nat)
    requires |b| >= 2
    ensures v < 0x10000
  {
    b[0] as int + 256 * b[1] as int
  }

  lemma {:induction false} ReadWritten(v: nat, rest: Bytes)
    requires v < 0x10000
    ensures ReadLe16(Le16(v) + rest) == v && ReadLe16(Le16(v)) == v
  {
  }

  // ----- Bits -----

  /** Bit `k` of `v`, least significant first. */
  predicate Bit(v: nat, k: nat) {
    if k == 0 then v % 2 == 1 else Bit(v / 2, k - 1)
  }

  /** Bitwise conjunction. */
  function And(a: nat, b: nat): (c: nat)
    ensures c <= a && c <= b
  {
    if a == 0 || b == 0 then 0
    else a % 2 * (b % 2) + 2 * And(a / 2, b / 2)
  }

  /** `v | 1 << k`. */
  function SetBit(v: nat, k: nat): (r: nat)
    ensures r >= v
  {
    if k == 0 then v / 2 * 2 + 1 else v % 2 + 2 * SetBit(v / 2, k - 1)
  }

  function Pow2(n: nat): nat {
    if n == 0 then 1 else 2 * Pow2(n - 1)
  }

  lemma {:induction false} SetBitFits(v: nat, k: nat, n: nat)
    requires k < n && v < Pow2(n)
    ensures SetBit(v, k) < Pow2(n)
  {
    var half := Pow2(n - 1);
    assert Pow2(n) == 2 * half;
    assert v / 2 < half;
    if k > 0 { SetBitFits(v / 2, k - 1, n - 1); }
  }

  lemma {:induction false} SetBitOfByte(v: Byte, k: nat)
    requires k < 8
    ensures SetBit(v, k) < 256
  {
    assert Pow2(4) == 16 && Pow2(8) == 16 * Pow2(4);
    SetBitFits(v, k, 8);
  }

  lemma {:induction false} BitOfZero(k: nat)
    ensures !Bit(0, k)
  {
    if k > 0 { BitOfZero(k - 1); }
  }

  /** A conjunction has exactly the bits both words have. */
  lemma {:induction false} AndBit(a: nat, b: nat, k: nat)
    ensures Bit(And(a, b), k) <==> Bit(a, k) && Bit(b, k)
  {
    if a == 0 || b == 0 {
      BitOfZero(k);
    } else if k > 0 {
      assert And(a, b) / 2 == And(a / 2, b / 2);
      AndBit(a / 2, b / 2, k - 1);
    } else {
      assert a % 2 == 0 || a % 2 == 1;
      assert And(a, b) % 2 == a % 2 * (b % 2);
    }
  }

  /** Setting a flag sets that bit and no other. */
  lemma {:induction false} SetBitBits(v: nat, k: nat, j: nat)
    ensures Bit(SetBit(v, k), j) <==> (j == k || Bit(v, j))
  {
    if k > 0 && j > 0 { SetBitBits(v / 2, k - 1, j - 1); }
  }
}
