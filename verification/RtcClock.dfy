/** The 48-bit slow-clock counter and its alarm: ticks from nanoseconds, deadlines from ticks. */
module RtcClock {
  import opened Bits
  import opened Division

  const SECOND: nat := 1_000_000_000
  const WRAP: nat := 0x1_0000_0000_0000

  /**
    The counter's base, its frequency, the alarm, and the armed timer; `target` is the alarm on the unwrapped count.
   */
  datatype Clock = Clock(baseNs: nat, baseTicks: nat, freq: nat, alarm: nat, enabled: bool, timer: Option<nat>,
    target: nat)

  function Scale(a: nat, b: nat, c: nat): nat
    requires c > 0
  {
    Product(a, b);
    a * b / c
  }

  lemma {:induction false} Product(a: nat, b: nat)
    ensures a * b >= 0
  {
  }

  /** The count before it wraps at 48 bits. */
  function Count(k: Clock, now: nat): nat
    requires k.baseNs <= now
  {
    k.baseTicks + Scale(now - k.baseNs, k.freq, SECOND)
  }

  function Counter(k: Clock, now: nat): nat
    requires k.baseNs <= now
  {
    Count(k, now) % WRAP
  }

  /** Ticks until the alarm, modulo the counter's width. */
  function Remaining(k: Clock, now: nat): nat
    requires k.baseNs <= now
  {
    (k.alarm - Counter(k, now)) % WRAP
  }

  /** Past deadlines fire at once, also across a wrap of the counter. */
  predicate Overdue(k: Clock, now: nat)
    requires k.baseNs <= now
  {
    Remaining(k, now) == 0 || Remaining(k, now) > (WRAP - 1) / 2
  }

  /** The clock part of scheduling; an overdue alarm is left to the caller. */
  function Schedule(k: Clock, now: nat): Clock
    requires k.baseNs <= now && k.freq > 0
  {
    if !k.enabled then k.(timer := None)
    else if Overdue(k, now) then k.(timer := None)
    else
      var ticks := Remaining(k, now);
      k.(timer := Some(now + Scale(ticks, SECOND, k.freq) + 1), target := Count(k, now) + ticks)
  }

  // ----- Division facts -----

  lemma {:induction false} FloorBounds(n: nat, c: nat)
    requires c > 0
    ensures n / c * c <= n < n / c * c + c
  {
  }

  lemma {:induction false} FloorAtLeast(n: nat, c: nat, q: nat)
    requires c > 0 && q * c <= n
    ensures n / c >= q
  {
    FloorBounds(n, c);
    assert (n / c + 1) * c > q * c;
  }

  /** A deadline of r ticks, rounded down and one more nanosecond, is r ticks on. */
  lemma {:induction false} DeadlineReaches(e: nat, r: nat, f: nat)
    requires f > 0
    ensures Scale(e + Scale(r, SECOND, f) + 1, f, SECOND) >= Scale(e, f, SECOND) + r
  {
    var q, t := Scale(r, SECOND, f), Scale(e, f, SECOND);
    FloorBounds(r * SECOND, f);
    FloorBounds(e * f, SECOND);
    Product(e, f);
    Expand(e, q, f);
    assert (e + q + 1) * f >= (t + r) * SECOND;
    FloorAtLeast((e + q + 1) * f, SECOND, t + r);
  }

  lemma {:induction false} Expand(e: nat, q: nat, f: nat)
    ensures (e + q + 1) * f == e * f + q * f + f
  {
  }

  /** It is less than one period and one nanosecond after the count got there. */
  lemma {:induction false} DeadlineIsPrompt(e: nat, r: nat, f: nat, t: nat)
    requires f > 0 && Scale(t, f, SECOND) >= Scale(e, f, SECOND) + r
    ensures (e + Scale(r, SECOND, f) - t) * f < SECOND
  {
    var q, s := Scale(r, SECOND, f), Scale(e, f, SECOND);
    Product(e, f);
    Product(t, f);
    FloorBounds(r * SECOND, f);
    FloorBounds(e * f, SECOND);
    FloorBounds(t * f, SECOND);
    assert Scale(t, f, SECOND) * SECOND >= (s + r) * SECOND;
    Spread(e, q, t, f);
  }

  /** For a clock slower than a gigahertz the deadline is at most two ticks past the target. */
  lemma {:induction false} DeadlineIsClose(e: nat, r: nat, f: nat)
    requires 0 < f <= SECOND
    ensures Scale(e + Scale(r, SECOND, f) + 1, f, SECOND) <= Scale(e, f, SECOND) + r + 2
  {
    var q, t := Scale(r, SECOND, f), Scale(e, f, SECOND);
    Product(e, f);
    Product(e + q + 1, f);
    FloorBounds(r * SECOND, f);
    FloorBounds(e * f, SECOND);
    FloorBounds((e + q + 1) * f, SECOND);
    Expand(e, q, f);
    assert Scale(e + q + 1, f, SECOND) * SECOND < (t + r + 2) * SECOND;
  }

  lemma {:induction false} Spread(e: nat, q: nat, t: nat, f: nat)
    ensures (e + q - t) * f == e * f + q * f - t * f
  {
  }

  lemma {:induction false} CountGrows(k: Clock, t: nat, u: nat)
    requires k.baseNs <= t <= u
    ensures Count(k, t) <= Count(k, u)
  {
    var a, b := t - k.baseNs, u - k.baseNs;
    Product(a, k.freq);
    Product(b, k.freq);
    Product(b - a, k.freq);
    assert b * k.freq == a * k.freq + (b - a) * k.freq;
    FloorBounds(a * k.freq, SECOND);
    FloorAtLeast(b * k.freq, SECOND, a * k.freq / SECOND);
  }

  // ----- An armed alarm -----

  /** The deadline is not before the target count, and less than a period and a nanosecond after it. */
  ghost predicate Punctual(k: Clock, deadline: nat) {
    && k.baseNs <= deadline
    && k.freq > 0
    && k.target % WRAP == k.alarm
    && k.target <= Count(k, deadline) <= k.target + 2
    && forall t {:trigger Count(k, t)} :: k.baseNs <= t <= deadline && Count(k, t) >= k.target ==>
         (deadline - 1 - t) * k.freq < SECOND
  }

  ghost predicate ClockOk(k: Clock, now: nat) {
    && k.baseNs <= now
    && k.baseTicks < WRAP
    && k.alarm < WRAP
    && 0 < k.freq <= SECOND
    && (k.enabled <==> k.timer.Some?)
    && (k.timer.Some? ==>
         now <= k.timer.value && Punctual(k, k.timer.value) && k.target <= Count(k, now) + (WRAP - 1) / 2)
  }

  lemma {:induction false} WrapAdds(c: nat, alarm: nat)
    requires alarm < WRAP
    ensures (c + (alarm - c % WRAP) % WRAP) % WRAP == alarm
  {
    var m := c % WRAP;
    assert c == c / WRAP * WRAP + m;
    if alarm >= m {
      Quotient(alarm - m, WRAP, 0, alarm - m);
      Quotient(c + (alarm - m), WRAP, c / WRAP, alarm);
    } else {
      Quotient(alarm - m, WRAP, -1, alarm - m + WRAP);
      Quotient(c + (alarm - m + WRAP), WRAP, c / WRAP + 1, alarm);
    }
  }

  /** Scheduling an enabled alarm that is not overdue arms it punctually, from now to less than 2^47 ticks ahead. */
  lemma {:induction false} SchedulesPunctually(k: Clock, now: nat)
    requires k.baseNs <= now && 0 < k.freq <= SECOND && k.alarm < WRAP && k.enabled && !Overdue(k, now)
    ensures var s := Schedule(k, now); s.timer.Some? && now < s.timer.value && Punctual(s, s.timer.value)
    ensures var s := Schedule(k, now); Count(k, now) < s.target <= Count(k, now) + (WRAP - 1) / 2
  {
    var s, r, e := Schedule(k, now), Remaining(k, now), now - k.baseNs;
    var deadline := s.timer.value;
    WrapAdds(Count(k, now), k.alarm);
    DeadlineReaches(e, r, k.freq);
    DeadlineIsClose(e, r, k.freq);
    hide Scale, Overdue, Remaining;
    forall t {:trigger Count(s, t)} | k.baseNs <= t <= deadline && Count(s, t) >= s.target
      ensures (deadline - 1 - t) * k.freq < SECOND
    {
      DeadlineIsPrompt(e, r, k.freq, t - k.baseNs);
      assert deadline - 1 - t == e + Scale(r, SECOND, k.freq) - (t - k.baseNs);
    }
  }

  /** An alarm exactly 2^47 ticks ahead fires at once; one tick less, and it is armed. */
  lemma {:induction false} HalfwayFiresAtOnce(k: Clock, now: nat)
    requires k.baseNs <= now && k.freq > 0
    ensures Overdue(k, now) <==> Remaining(k, now) == 0 || Remaining(k, now) >= 0x8000_0000_0000
  {
  }

  /** Switching the clock source keeps the count: the new base starts at the tick the old one had reached. */
  function Rebase(k: Clock, now: nat, freq: nat): Clock
    requires k.baseNs <= now
  {
    k.(baseTicks := Counter(k, now), baseNs := now, freq := freq)
  }

  lemma {:induction false} RebaseKeepsCount(k: Clock, now: nat, freq: nat)
    requires k.baseNs <= now
    ensures Counter(Rebase(k, now, freq), now) == Counter(k, now)
    ensures Remaining(Rebase(k, now, freq), now) == Remaining(k, now)
  {
    assert Scale(0, freq, SECOND) == 0;
  }

  lemma {:induction false} WrappedDistance(count: nat, target: nat)
    requires count - WRAP / 2 <= target < count + WRAP / 2
    ensures (target % WRAP - count % WRAP) % WRAP == if target >= count then target - count else target - count + WRAP
  {
    var a, b := target / WRAP, count / WRAP;
    var d := if target >= count then target - count else target - count + WRAP;
    assert target % WRAP - count % WRAP == target - count - (a - b) * WRAP;
    Quotient(target % WRAP - count % WRAP, WRAP, if target >= count then b - a else b - a - 1, d);
  }

  /**
    At a clock switch an armed alarm stays as many ticks away as it was; one whose tick has passed is overdue at
    once.
   */
  lemma {:induction false} SwitchKeepsDistance(k: Clock, now: nat, freq: nat)
    requires ClockOk(k, now) && k.enabled && freq > 0
    ensures var n := Rebase(k, now, freq);
      && (Overdue(n, now) <==> Count(k, now) >= k.target)
      && (!Overdue(n, now) ==> Schedule(n, now).target - Count(n, now) == k.target - Count(k, now))
  {
    CountGrows(k, now, k.timer.value);
    RebaseKeepsCount(k, now, freq);
    WrappedDistance(Count(k, now), k.target);
  }
}
