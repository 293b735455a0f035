/** GATT UUIDs and the service tree, shared by the two paths a service table takes to the peer. */
module GattBytes {
  import opened Bits

  /** UUIDs are kept as their little-endian bytes; the printed form is one-to-one with them. */
  predicate UuidOk(uuid: Bytes) {
    |uuid| == 2 || |uuid| == 16
  }

  const PRIMARY: Bytes := [0x00, 0x28]
  const SECONDARY: Bytes := [0x01, 0x28]
  const INCLUDE: Bytes := [0x02, 0x28]
  const CHARACTERISTIC: Bytes := [0x03, 0x28]

  // ----- The service tree both paths must agree on -----

  datatype Descriptor = Descriptor(handle: nat, uuid: Bytes, permissions: Byte, keySize: Byte)

  datatype Characteristic = Characteristic(declaration: nat, handle: nat, properties: Byte, uuid: Bytes,
                                           descriptors: seq<Descriptor>, permissions: Byte, keySize: Byte)

  datatype Service = Service(start: nat, end: nat, uuid: Bytes, characteristics: seq<Characteristic>)

  const MAX_SERVICES: nat := 32
  const MAX_CHARACTERISTICS: nat := 64
  const MAX_DESCRIPTORS: nat := 32

  /** A hexadecimal digit, in upper case. */
  function HexDigit(v: nat): char
    requires v < 16
  {
    if v < 10 then ('0' as int + v) as char else ('A' as int + v - 10) as char
  }

  function Digits(b: Byte): string {
    [HexDigit(b / 16), HexDigit(b % 16)]
  }

  /** The dash in front of the last of so many bytes. */
  function Dash(size: nat): string {
    if size == 12 || size == 10 || size == 8 || size == 6 then "-" else ""
  }

  /** The printed form of a UUID, most significant byte first. */
  function UuidString(uuid: Bytes): string {
    if uuid == [] then ""
    else Dash(|uuid|) + Digits(uuid[|uuid| - 1]) + UuidString(uuid[..|uuid| - 1])
  }

  lemma {:induction false} DigitsDiffer(a: Byte, b: Byte)
    requires Digits(a) == Digits(b)
    ensures a == b
  {
    assert Digits(a)[0] == Digits(b)[0] && Digits(a)[1] == Digits(b)[1];
    HalvesMakeByte(a);
    HalvesMakeByte(b);
    HexDigitsDiffer(a / 16, b / 16);
    HexDigitsDiffer(a % 16, b % 16);
  }

  lemma {:induction false} HalvesMakeByte(b: Byte)
    ensures 0 <= b / 16 < 16 && 0 <= b % 16 < 16 && b == 16 * (b / 16) + b % 16
  {
  }

  lemma {:induction false} HexDigitsDiffer(v: nat, w: nat)
    requires v < 16 && w < 16 && HexDigit(v) == HexDigit(w)
    ensures v == w
  {
    assert HexDigit(v) as int == HexDigit(w) as int;
  }

  lemma {:induction false} SameParts(dash: string, x: string, y: string, r: string, t: string)
    requires dash + x + r == dash + y + t && |x| == |y|
    ensures x == y && r == t
  {
    var n := |dash|;
    assert (dash + x + r)[n..n + |x|] == x && (dash + y + t)[n..n + |x|] == y;
    assert (dash + x + r)[n + |x|..] == r && (dash + y + t)[n + |x|..] == t;
  }

  /** Comparing printed UUIDs of one length compares the UUIDs. */
  lemma {:induction false} UuidStringInjective(a: Bytes, b: Bytes)
    requires |a| == |b| && UuidString(a) == UuidString(b)
    ensures a == b
  {
    hide Digits, Dash;
    if a != [] {
      var n := |a| - 1;
      assert |Digits(a[n])| == |Digits(b[n])| by { TwoDigits(a[n]); TwoDigits(b[n]); }
      SameParts(Dash(|a|), Digits(a[n]), Digits(b[n]), UuidString(a[..n]), UuidString(b[..n]));
      DigitsDiffer(a[n], b[n]);
      UuidStringInjective(a[..n], b[..n]);
      assert a == a[..n] + [a[n]] && b == b[..n] + [b[n]];
    }
  }

  lemma {:induction false} TwoDigits(b: Byte)
    ensures |Digits(b)| == 2
  {
  }

  lemma {:induction false} UuidStringLength(uuid: Bytes)
    ensures |UuidString(uuid)| >= 2 * |uuid|
    ensures (|uuid| < 6 ==> |UuidString(uuid)| == 2 * |uuid|)
  {
    if uuid != [] { UuidStringLength(uuid[..|uuid| - 1]); }
  }

  /** Two UUIDs print the same only if they are the same. */
  lemma {:induction false} UuidStringsIdentify(a: Bytes, b: Bytes)
    requires UuidOk(a) && UuidOk(b) && UuidString(a) == UuidString(b)
    ensures a == b
  {
    UuidStringLength(a);
    UuidStringLength(b);
    UuidStringInjective(a, b);
  }
}
