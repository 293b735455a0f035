/** The RX8130CE WEEK register: seven bits that rotate left by one at midnight. */
module Weekday {
  import opened Bits

  /** `week` turned left within its seven bits. */
  function Rotate(week: bv8, shift: nat): bv8
    requires shift < 7
  {
    ((week << shift) | (week >> (7 - shift))) & 0x7F
  }

  /** Remainder of C's truncating division. */
  function Rem(a: int, n: int): int
    requires n > 0
  {
    if a >= 0 then a % n else -(-a % n)
  }

  /** WEEK on day number `day` when the register was `week` on day `baseDay`. */
  function WeekAt(week: Byte, baseDay: int, day: int): Byte {
    Rotate(week as bv8, (Rem(day - baseDay, 7) + 7) % 7) as Byte
  }

  /** Does the register share a bit with a weekday mask? */
  predicate Meets(mask: Byte, week: Byte) {
    mask as bv8 & week as bv8 != 0
  }

  /** What `n` midnights, one after the other, do to the register. */
  function Midnights(week: bv8, n: nat): bv8 {
    if n == 0 then week else Rotate(Midnights(week, n - 1), 1)
  }

  lemma {:induction false} RotateSteps(week: bv8)
    requires week < 128
    ensures Rotate(week, 0) == week
    ensures Rotate(Rotate(week, 1), 1) == Rotate(week, 2)
    ensures Rotate(Rotate(week, 2), 1) == Rotate(week, 3)
    ensures Rotate(Rotate(week, 3), 1) == Rotate(week, 4)
    ensures Rotate(Rotate(week, 4), 1) == Rotate(week, 5)
    ensures Rotate(Rotate(week, 5), 1) == Rotate(week, 6)
    ensures Rotate(Rotate(week, 6), 1) == week
  {
  }

  lemma {:induction false} RotateIsMidnights(week: bv8, shift: nat)
    requires week < 128 && shift < 7
    ensures Rotate(week, shift) == Midnights(week, shift)
  {
    RotateSteps(week);
    if shift > 0 {
      RotateIsMidnights(week, shift - 1);
      assert shift == 1 || shift == 2 || shift == 3 || shift == 4 || shift == 5 || shift == 6;
    }
  }

  lemma {:induction false} MidnightsFit(week: bv8, n: nat)
    requires week < 128
    ensures Midnights(week, n) < 128
  {
  }

  lemma {:induction false} MidnightsAdd(week: bv8, a: nat, b: nat)
    ensures Midnights(Midnights(week, a), b) == Midnights(week, a + b)
  {
    if b > 0 { MidnightsAdd(week, a, b - 1); }
  }

  lemma {:induction false} MidnightsModulo7(week: bv8, n: nat)
    requires week < 128
    ensures Midnights(week, n) == Midnights(week, n % 7)
  {
    hide Midnights;
    if n >= 7 {
      MidnightsAdd(week, 7, n - 7);
      WholeWeek(week);
      MidnightsModulo7(week, n - 7);
      assert (n - 7) % 7 == n % 7;
    }
  }

  /** Seven midnights bring the register back. */
  lemma {:induction false} WholeWeek(week: bv8)
    requires week < 128
    ensures Midnights(week, 7) == week
  {
    hide Rotate;
    RotateIsMidnights(week, 6);
    RotateSteps(week);
  }

  /** WeekAt counts midnights modulo seven, in either direction. */
  lemma {:induction false} WeekAtCountsMidnights(week: Byte, baseDay: int, day: int)
    requires week < 128
    ensures WeekAt(week, baseDay, day) == Midnights(week as bv8, (day - baseDay) % 7) as Byte < 128
  {
    assert (Rem(day - baseDay, 7) + 7) % 7 == (day - baseDay) % 7;
    RotateIsMidnights(week as bv8, (day - baseDay) % 7);
    MidnightsFit(week as bv8, (day - baseDay) % 7);
  }

  lemma {:induction false} MidnightsCompose(week: bv8, a: nat, b: nat, c: nat)
    requires week < 128 && (a + b) % 7 == c
    ensures Midnights(Midnights(week, a), b) == Midnights(week, c)
  {
    MidnightsAdd(week, a, b);
    MidnightsModulo7(week, a + b);
  }

  lemma {:induction false} ByteIsBits(v: bv8)
    ensures (v as Byte) as bv8 == v
  {
  }

  /** Rebasing the clock at day `mid` leaves WEEK on every other day as it was. */
  lemma {:induction false} RebaseKeepsWeek(week: Byte, baseDay: int, mid: int, day: int)
    requires week < 128
    ensures WeekAt(WeekAt(week, baseDay, mid), mid, day) == WeekAt(week, baseDay, day)
  {
    WeekAtCountsMidnights(week, baseDay, mid);
    WeekAtCountsMidnights(WeekAt(week, baseDay, mid), mid, day);
    WeekAtCountsMidnights(week, baseDay, day);
    ByteIsBits(Midnights(week as bv8, (mid - baseDay) % 7));
    RemaindersAdd(mid - baseDay, day - mid);
    MidnightsCompose(week as bv8, (mid - baseDay) % 7, (day - mid) % 7, (day - baseDay) % 7);
  }

  lemma {:induction false} RemaindersAdd(a: int, b: int)
    ensures (a % 7 + b % 7) % 7 == (a + b) % 7
  {
    var q := a / 7 + b / 7;
    assert a + b == 7 * q + (a % 7 + b % 7);
  }

  lemma {:induction false} SomeRotationMeets(week: bv8, mask: bv8) returns (shift: nat)
    requires 0 < week < 128 && 0 < mask < 128
    ensures shift < 7 && mask & Rotate(week, shift) != 0
  {
    if
    case mask & Rotate(week, 0) != 0 => shift := 0;
    case mask & Rotate(week, 1) != 0 => shift := 1;
    case mask & Rotate(week, 2) != 0 => shift := 2;
    case mask & Rotate(week, 3) != 0 => shift := 3;
    case mask & Rotate(week, 4) != 0 => shift := 4;
    case mask & Rotate(week, 5) != 0 => shift := 5;
    case mask & Rotate(week, 6) != 0 => shift := 6;
  }

  /** A nonzero WEEK meets any nonzero weekday mask within the seven days after any day. */
  lemma {:induction false} WeekdayRecurs(week: Byte, mask: Byte, baseDay: int, after: int) returns (day: int)
    requires 0 < week < 128 && 0 < mask < 128
    ensures after < day <= after + 7 && Meets(mask, WeekAt(week, baseDay, day))
  {
    BitsOfByte(week);
    BitsOfByte(mask);
    var shift := SomeRotationMeets(week as bv8, mask as bv8);
    var weeks := (shift + baseDay - after - 1) / 7;
    day := shift + baseDay - 7 * weeks;
    Turns(day - baseDay, shift, weeks);
    MeetsWhenTurned(week, mask, baseDay, day, shift);
  }

  lemma {:induction false} BitsOfByte(v: Byte)
    requires 0 < v < 128
    ensures 0 < v as bv8 < 128
  {
  }

  lemma {:induction false} MeetsWhenTurned(week: Byte, mask: Byte, baseDay: int, day: int, shift: nat)
    requires shift < 7 && (Rem(day - baseDay, 7) + 7) % 7 == shift
    requires mask as bv8 & Rotate(week as bv8, shift) != 0
    ensures Meets(mask, WeekAt(week, baseDay, day))
  {
    ByteIsBits(Rotate(week as bv8, shift));
  }

  lemma {:induction false} Turns(days: int, shift: nat, weeks: int)
    requires shift < 7 && days == shift - 7 * weeks
    ensures (Rem(days, 7) + 7) % 7 == shift
  {
  }
}
