/** RX8130CE faces (BCD calendar registers) and alarm settings, with what they mean in seconds. */
module Alarm {
  import opened Bits
  import opened Calendar
  import opened Division
  import opened Weekday

  function ToBcd(value: int): Byte
    requires 0 <= value < 100
  {
    value / 10 * 16 + value % 10
  }

  function FromBcd(value: Byte): (n: nat) {
    value / 16 * 10 + value % 16
  }

  predicate Digits(value: Byte) {
    value % 16 < 10 && value / 16 < 10
  }

  lemma {:induction false} BcdOfDigits(value: Byte)
    requires Digits(value)
    ensures FromBcd(value) < 100 && ToBcd(FromBcd(value)) == value
  {
  }

  lemma {:induction false} DigitsOfBcd(n: int)
    requires 0 <= n < 100
    ensures Digits(ToBcd(n)) && FromBcd(ToBcd(n)) == n
    ensures n < 80 ==> ToBcd(n) < 0x80
    ensures n < 40 ==> ToBcd(n) < 0x40
    ensures n < 20 ==> ToBcd(n) < 0x20
  {
  }

  // ----- gmtime fields of a time in seconds -----

  function DayIndex(t: nat): nat { t / 86400 }
  function Hour(t: nat): nat { t / 3600 % 24 }
  function Minute(t: nat): nat { t / 60 % 60 }
  function Second(t: nat): nat { t % 60 }

  function Moment(day: nat, hour: nat, minute: nat, second: nat): nat {
    day * 86400 + hour * 3600 + minute * 60 + second
  }

  lemma {:induction false} MomentFields(day: nat, hour: nat, minute: nat, second: nat)
    requires hour < 24 && minute < 60 && second < 60
    ensures var t := Moment(day, hour, minute, second);
      DayIndex(t) == day && Hour(t) == hour && Minute(t) == minute && Second(t) == second
  {
    var t := Moment(day, hour, minute, second);
    Quotient(t, 60, (day * 24 + hour) * 60 + minute, second);
    Quotient((day * 24 + hour) * 60 + minute, 60, day * 24 + hour, minute);
    Quotient(t, 3600, day * 24 + hour, minute * 60 + second);
    Quotient(day * 24 + hour, 24, day, hour);
    Quotient(t, 86400, day, hour * 3600 + minute * 60 + second);
  }

  lemma {:induction false} FieldsMoment(t: nat)
    ensures Moment(DayIndex(t), Hour(t), Minute(t), Second(t)) == t
    ensures Hour(t) < 24 && Minute(t) < 60 && Second(t) < 60
  {
    var minutes, hours := t / 60, t / 60 / 60;
    Quotient(t, 3600, hours, minutes % 60 * 60 + t % 60);
    Quotient(t, 86400, hours / 24, hours % 24 * 3600 + minutes % 60 * 60 + t % 60);
  }

  // ----- The calendar registers 0x10..0x16 -----

  datatype Face = Face(second: Byte, minute: Byte, hour: Byte, week: Byte, day: Byte, month: Byte, year: Byte)

  function FaceDate(f: Face): Date {
    Date(2000 + FromBcd(f.year), FromBcd(f.month % 0x20), FromBcd(f.day % 0x40))
  }

  predicate FaceValid(f: Face) {
    && FromBcd(f.second % 0x80) <= 59
    && FromBcd(f.minute % 0x80) <= 59
    && FromBcd(f.hour % 0x40) <= 23
    && Calendar.Valid(FaceDate(f))
  }

  /** The time in seconds a written face stands for. */
  function FaceSeconds(f: Face): (t: int)
    requires FaceValid(f)
    ensures t >= 0
  {
    DayNumberNonNegative(FaceDate(f));
    Moment(DayNumber(FaceDate(f)), FromBcd(f.hour % 0x40), FromBcd(f.minute % 0x80), FromBcd(f.second % 0x80))
  }

  function FaceOf(d: Date, hour: nat, minute: nat, second: nat, week: Byte): Face
    requires 0 <= d.day < 100 && 0 <= d.month < 100 && hour < 24 && minute < 60 && second < 60
  {
    Face(ToBcd(second), ToBcd(minute), ToBcd(hour), week, ToBcd(d.day), ToBcd(d.month), ToBcd(d.year % 100))
  }

  /** The face read back at time `t` with weekday register `week`. */
  function FaceAt(t: nat, week: Byte): Face {
    FieldsMoment(t);
    FaceOf(DateOf(DayIndex(t)), Hour(t), Minute(t), Second(t), week)
  }

  /** Only digits, and no bit outside the fields. */
  predicate Canonical(f: Face) {
    && Digits(f.second)
    && Digits(f.minute)
    && Digits(f.hour)
    && Digits(f.day)
    && Digits(f.month)
    && Digits(f.year)
    && f.second < 0x80
    && f.minute < 0x80
    && f.hour < 0x40
    && f.week < 0x80
    && f.day < 0x40
    && f.month < 0x20
  }

  /** A canonical face that is committed is read back register for register. */
  lemma {:induction false} CommittedFaceIsRead(f: Face)
    requires Canonical(f) && FaceValid(f)
    ensures FaceAt(FaceSeconds(f), f.week) == f
  {
    UnmaskedSeconds(f);
    DigitsFace(f);
    MomentFace(FaceDate(f), FromBcd(f.hour), FromBcd(f.minute), FromBcd(f.second), f.week);
  }

  lemma {:induction false} MomentFace(d: Date, hour: nat, minute: nat, second: nat, week: Byte)
    requires Calendar.Valid(d) && hour < 24 && minute < 60 && second < 60
    ensures DayNumber(d) >= 0
    ensures FaceAt(Moment(DayNumber(d), hour, minute, second), week) == FaceOf(d, hour, minute, second, week)
  {
    DateOfDayNumber(d);
    MomentFields(DayNumber(d), hour, minute, second);
  }

  lemma {:induction false} UnmaskedSeconds(f: Face)
    requires Canonical(f) && FaceValid(f)
    ensures DayNumber(FaceDate(f)) >= 0
    ensures FaceSeconds(f) == Moment(DayNumber(FaceDate(f)), FromBcd(f.hour), FromBcd(f.minute), FromBcd(f.second))
  {
    FieldsUnmasked(f);
    DayNumberNonNegative(FaceDate(f));
  }

  lemma {:induction false} DigitsFace(f: Face)
    requires Canonical(f) && FaceValid(f)
    ensures FromBcd(f.hour) < 24
    ensures FromBcd(f.minute) < 60
    ensures FromBcd(f.second) < 60
    ensures FaceOf(FaceDate(f), FromBcd(f.hour), FromBcd(f.minute), FromBcd(f.second), f.week) == f
  {
    FieldsUnmasked(f);
    var d := FaceDate(f);
    assert d.day == FromBcd(f.day) && d.month == FromBcd(f.month) && d.year == 2000 + FromBcd(f.year);
    FaceDigits(f);
    YearDigits(FromBcd(f.year));
  }

  lemma {:induction false} YearDigits(y: nat)
    requires y < 100
    ensures (2000 + y) % 100 == y
  {
  }

  lemma {:induction false} FaceDigits(f: Face)
    requires Canonical(f)
    ensures FromBcd(f.year) < 100 && ToBcd(FromBcd(f.year)) == f.year
    ensures FromBcd(f.month) < 100 && ToBcd(FromBcd(f.month)) == f.month
    ensures FromBcd(f.day) < 100 && ToBcd(FromBcd(f.day)) == f.day
    ensures FromBcd(f.hour) < 100 && ToBcd(FromBcd(f.hour)) == f.hour
    ensures FromBcd(f.minute) < 100 && ToBcd(FromBcd(f.minute)) == f.minute
    ensures FromBcd(f.second) < 100 && ToBcd(FromBcd(f.second)) == f.second
  {
    BcdOfDigits(f.second);
    BcdOfDigits(f.minute);
    BcdOfDigits(f.hour);
    BcdOfDigits(f.day);
    BcdOfDigits(f.month);
    BcdOfDigits(f.year);
  }

  lemma {:induction false} FieldsUnmasked(f: Face)
    requires Canonical(f)
    ensures f.second % 0x80 == f.second
    ensures f.minute % 0x80 == f.minute
    ensures f.hour % 0x40 == f.hour
    ensures f.day % 0x40 == f.day && f.month % 0x20 == f.month
  {
  }

  /** Writing back the face just read sets the same second, for every instant of the years 2000 to 2099. */
  lemma {:induction false} ReadFaceCommits(t: nat, week: Byte)
    requires week < 0x80 && 2000 <= DateOf(DayIndex(t)).year < 2100
    ensures Canonical(FaceAt(t, week))
    ensures FaceValid(FaceAt(t, week))
    ensures FaceSeconds(FaceAt(t, week)) == t
  {
    var d := DateOf(DayIndex(t));
    FieldsMoment(t);
    FaceOfReads(d, Hour(t), Minute(t), Second(t), week);
    DayNumberOfDate(DayIndex(t));
    UnmaskedSeconds(FaceAt(t, week));
  }

  lemma {:induction false} FaceOfReads(d: Date, hour: nat, minute: nat, second: nat, week: Byte)
    requires Calendar.Valid(d) && 2000 <= d.year < 2100 && hour < 24 && minute < 60 && second < 60 && week < 0x80
    ensures var f := FaceOf(d, hour, minute, second, week);
      && Canonical(f) && FaceValid(f) && FaceDate(f) == d
      && FromBcd(f.hour) == hour
      && FromBcd(f.minute) == minute
      && FromBcd(f.second) == second
  {
    DigitsOfBcd(second);
    DigitsOfBcd(minute);
    DigitsOfBcd(hour);
    DigitsOfBcd(d.day);
    DigitsOfBcd(d.month);
    DigitsOfBcd(d.year % 100);
    FieldsUnmasked(FaceOf(d, hour, minute, second, week));
    YearOfCentury(d.year);
  }

  lemma {:induction false} YearOfCentury(y: int)
    requires 2000 <= y < 2100
    ensures y == 2000 + y % 100
  {
  }

  // ----- Alarm settings -----

  /** The alarm registers, WADA, and the weekday base the comparison depends on. */
  datatype Settings = Settings(minuteReg: Byte, hourReg: Byte, dayReg: Byte, byDate: bool, week: Byte, baseDay: nat)

  /** Bit 7 of an alarm register switches its comparison off. */
  predicate Masked(reg: Byte) { reg >= 0x80 }

  function AlarmMinute(a: Settings): nat { FromBcd(a.minuteReg % 0x80) }
  function AlarmHour(a: Settings): nat { FromBcd(a.hourReg % 0x40) }
  function AlarmDay(a: Settings): nat { FromBcd(a.dayReg % 0x40) }

  /** Settings the device arms; others never match. */
  predicate Accepts(a: Settings) {
    && (Masked(a.minuteReg) || (AlarmMinute(a) <= 59 && a.minuteReg % 16 <= 9))
    && (Masked(a.hourReg) || (AlarmHour(a) <= 23 && a.hourReg % 16 <= 9))
    && (Masked(a.dayReg) ||
        if a.byDate then 1 <= AlarmDay(a) <= 31 && a.dayReg % 16 <= 9
        else a.dayReg % 0x80 != 0 && a.week != 0)
  }

  predicate DayMatches(a: Settings, day: nat) {
    Masked(a.dayReg) ||
    if a.byDate then AlarmDay(a) == DateOf(day).day
    else Meets(a.dayReg, WeekAt(a.week, a.baseDay, day))
  }

  predicate HourMatches(a: Settings, t: nat) { Masked(a.hourReg) || AlarmHour(a) == Hour(t) }

  predicate MinuteMatches(a: Settings, t: nat) { Masked(a.minuteReg) || AlarmMinute(a) == Minute(t) }

  /** `t` is a minute boundary at which every unmasked field agrees. */
  predicate Matches(a: Settings, t: nat) {
    && t % 60 == 0
    && DayMatches(a, DayIndex(t))
    && HourMatches(a, t)
    && MinuteMatches(a, t)
  }

  /** `t` is the first match after second `s`. */
  ghost predicate IsNext(a: Settings, s: nat, t: nat) {
    s < t && Matches(a, t) && forall u: nat :: s < u < t ==> !Matches(a, u)
  }

  /** Accepted settings match again after any instant. */
  lemma {:induction false} MatchExists(a: Settings, s: nat) returns (t: nat)
    requires Accepts(a) && a.week < 128
    ensures t > s && Matches(a, t)
  {
    var day: nat := DayIndex(s) + 1;
    if !Masked(a.dayReg) {
      if a.byDate {
        day := DayOfMonthRecurs(DayIndex(s), AlarmDay(a));
      } else {
        day := WeekdayRecurs(a.week, a.dayReg, a.baseDay, DayIndex(s));
      }
    }
    var hour := if Masked(a.hourReg) then 0 else AlarmHour(a);
    var minute := if Masked(a.minuteReg) then 0 else AlarmMinute(a);
    t := Moment(day, hour, minute, 0);
    MomentFields(day, hour, minute, 0);
    FieldsMoment(s);
    assert Second(t) == 0;
  }

  // ----- The three skips of the search: nothing they jump over matches -----

  /** To the next midnight. */
  lemma {:induction false} DaySkip(a: Settings, t: nat, next: nat)
    requires t % 60 == 0 && !DayMatches(a, DayIndex(t))
    requires next == t + (24 * 60 - Hour(t) * 60 - Minute(t)) * 60
    ensures next % 60 == 0 && t < next
    ensures forall u: nat :: t <= u < next ==> !Matches(a, u)
  {
    FieldsMoment(t);
    var day := DayIndex(t);
    assert next == (day + 1) * 86400;
    Quotient(next, 60, (day + 1) * 1440, 0);
    forall u: nat | t <= u < next
      ensures !Matches(a, u)
    {
      Quotient(u, 86400, day, u - day * 86400);
    }
  }

  /** To the next start of the alarm hour. */
  lemma {:induction false} HourSkip(a: Settings, t: nat, next: nat)
    requires t % 60 == 0 && !Masked(a.hourReg) && AlarmHour(a) < 24 && AlarmHour(a) != Hour(t)
    requires next == t + (AlarmHour(a) + 24 - Hour(t)) % 24 * 3600 - Minute(t) * 60
    ensures next % 60 == 0 && t < next
    ensures forall u: nat :: t <= u < next ==> !Matches(a, u)
  {
    FieldsMoment(t);
    var day, hour, target := DayIndex(t), Hour(t), AlarmHour(a);
    var delta := if target > hour then target - hour else target + 24 - hour;
    Quotient(target + 24 - hour, 24, if target > hour then 1 else 0, delta);
    var hours := day * 24 + hour;
    assert next == (hours + delta) * 3600;
    Quotient(next, 60, (hours + delta) * 60, 0);
    forall u: nat | t <= u < next
      ensures !Matches(a, u)
    {
      OtherHour(day, hour, target, delta, u);
    }
  }

  /** Between an hour of the day and the next start of another, it is not that other hour. */
  lemma {:induction false} OtherHour(day: nat, hour: nat, target: nat, delta: nat, u: nat)
    requires hour < 24 && target < 24 && delta == (if target > hour then target - hour else target + 24 - hour)
    requires (day * 24 + hour) * 3600 <= u < (day * 24 + hour + delta) * 3600 && target != hour
    ensures Hour(u) != target
  {
    var hours := day * 24 + hour;
    var k := u / 3600 - hours;
    assert u == u / 3600 * 3600 + u % 3600;
    assert 0 <= k < delta;
    if hour + k < 24 {
      Quotient(hours + k, 24, day, hour + k);
    } else {
      Quotient(hours + k, 24, day + 1, hour + k - 24);
    }
  }

  /** To the next occurrence of the alarm minute. */
  lemma {:induction false} MinuteSkip(a: Settings, t: nat, next: nat)
    requires t % 60 == 0 && !Masked(a.minuteReg) && AlarmMinute(a) < 60 && AlarmMinute(a) != Minute(t)
    requires next == t + (AlarmMinute(a) + 60 - Minute(t)) % 60 * 60
    ensures next % 60 == 0 && t < next
    ensures forall u: nat :: t <= u < next ==> !Matches(a, u)
  {
    var hour, minute, target := t / 60 / 60, Minute(t), AlarmMinute(a);
    var delta := if target > minute then target - minute else target + 60 - minute;
    Quotient(target + 60 - minute, 60, if target > minute then 1 else 0, delta);
    var minutes := t / 60;
    assert minutes == hour * 60 + minute;
    assert next == (minutes + delta) * 60;
    Quotient(next, 60, minutes + delta, 0);
    forall u: nat | t <= u < next
      ensures !Matches(a, u)
    {
      var k := u / 60 - minutes;
      assert u == u / 60 * 60 + u % 60;
      assert 0 <= k < delta;
      if minute + k < 60 {
        Quotient(minutes + k, 60, hour, minute + k);
      } else {
        Quotient(minutes + k, 60, hour + 1, minute + k - 60);
      }
      assert Minute(u) != target;
    }
  }

  /**
    The alarm search: skip to the next midnight, alarm hour or alarm minute until all agree.
    It ends because accepted settings do match again and no skip passes a match.
   */
  method NextMatch(a: Settings, s: nat) returns (next: nat)
    requires Accepts(a) && a.week < 128
    ensures IsNext(a, s, next)
  {
    hide Matches, Meets, WeekAt, DateOf, DayIndex;
    var minute, hour, day := AlarmMinute(a), AlarmHour(a), AlarmDay(a);
    ghost var match_ := MatchExists(a, s);
    next := s + (60 - s % 60);
    MinuteBoundary(a, s, next);
    while true
      invariant next % 60 == 0 && s < next <= match_
      invariant forall u: nat :: s < u < next ==> !Matches(a, u)
      decreases match_ - next
    {
      ghost var t := next;
      if !Masked(a.dayReg) &&
         (if a.byDate then day != DateOf(DayIndex(next)).day
          else !Meets(a.dayReg, WeekAt(a.week, a.baseDay, DayIndex(next)))) {
        next := next + (24 * 60 - Hour(next) * 60 - Minute(next)) * 60;
        DaySkip(a, t, next);
        continue;
      }
      if !Masked(a.hourReg) && hour != Hour(next) {
        MinutesPassed(next);
        next := next + (hour + 24 - Hour(next)) % 24 * 3600 - Minute(next) * 60;
        HourSkip(a, t, next);
        continue;
      }
      if !Masked(a.minuteReg) && minute != Minute(next) {
        next := next + (minute + 60 - Minute(next)) % 60 * 60;
        MinuteSkip(a, t, next);
        continue;
      }
      AllFieldsMatch(a, next);
      break;
    }
  }

  lemma {:induction false} MinutesPassed(t: nat)
    ensures Minute(t) * 60 <= t
  {
    assert t / 60 == t / 60 / 60 * 60 + Minute(t);
  }

  lemma {:induction false} AllFieldsMatch(a: Settings, t: nat)
    requires t % 60 == 0 && DayMatches(a, DayIndex(t)) && HourMatches(a, t) && MinuteMatches(a, t)
    ensures Matches(a, t)
  {
  }

  /** No minute boundary lies strictly between an instant and the one computed from it. */
  lemma {:induction false} MinuteBoundary(a: Settings, s: nat, next: nat)
    requires next == s + (60 - s % 60)
    ensures next % 60 == 0 && s < next
    ensures forall u: nat :: s < u < next ==> !Matches(a, u)
    ensures forall u: nat :: u > s && Matches(a, u) ==> u >= next
  {
    var minutes := s / 60;
    assert s == minutes * 60 + s % 60 && next == (minutes + 1) * 60;
    Quotient(next, 60, minutes + 1, 0);
    forall u: nat | s < u && u % 60 == 0
      ensures u >= next
    {
      assert u == u / 60 * 60;
      assert u / 60 > minutes;
    }
  }
}
