/**
  The RTC controller's light sleep: wake sources, sleeping and waking, and the alarm, under any sequence of register
  writes.
 */
module LightSleep {
  import opened Bits
  import opened Division
  import opened RtcClock

  // Bits of the wake-source registers, and of the interrupt registers.
  const EXT1_WAKEUP: nat := 1
  const TIMER_WAKEUP: nat := 3
  const SLP_WAKEUP: nat := 0
  const SLP_REJECT: nat := 1
  const MAIN_TIMER: nat := 10

  /** Pin levels, masks and interrupt registers are sets of bit numbers; `sleepLine` and `irq` are output lines. */
  datatype Power = Power(gpio: set<nat>, activeHigh: bool, select: set<nat>, ext1Status: set<nat>,
                         raw: set<nat>, enable: set<nat>, irq: bool,
                         wakeEnable: set<nat>, wakeCause: set<nat>,
                         rejectEnable: set<nat>, rejectLight: bool, rejectCause: set<nat>,
                         sleepRequested: bool, sleeping: bool, sleepLine: bool)

  function Ext1Active(p: Power): set<nat> {
    if p.activeHigh then p.gpio * p.select else p.select - p.gpio
  }

  /** The wake sources that are active. */
  function Pending(p: Power): set<nat> {
    (if Ext1Active(p) != {} then {EXT1_WAKEUP} else {}) + (if MAIN_TIMER in p.raw then {TIMER_WAKEUP} else {})
  }

  function UpdateIrq(p: Power): Power {
    p.(irq := p.raw * p.enable != {})
  }

  /** Ends the sleep if an enabled source is active. */
  function Wake(p: Power): Power {
    var cause := Pending(p) * p.wakeEnable;
    if !p.sleeping || cause == {} then p
    else
      UpdateIrq(p.(wakeCause := cause, ext1Status := if EXT1_WAKEUP in cause then Ext1Active(p) else p.ext1Status,
                   raw := p.raw + {SLP_WAKEUP}, sleepRequested := false, sleeping := false, sleepLine := false))
  }

  function Sleep(p: Power): Power {
    var reject := Pending(p) * p.rejectEnable;
    if reject != {} && p.rejectLight then
      UpdateIrq(p.(wakeCause := {}, rejectCause := reject, sleepRequested := false, raw := p.raw + {SLP_REJECT}))
    else
      var q := Wake(p.(wakeCause := {}, sleeping := true));
      q.(sleepLine := q.sleeping)
  }

  /** What the alarm does to the power side. */
  function Ring(p: Power): Power {
    UpdateIrq(Wake(p.(raw := p.raw + {MAIN_TIMER})))
  }

  datatype Chip = Chip(now: nat, clock: Clock, power: Power)

  function Alarm(c: Chip): Chip {
    c.(clock := c.clock.(enabled := false, timer := None), power := Ring(c.power))
  }

  function Reschedule(c: Chip): Chip
    requires c.clock.baseNs <= c.now && c.clock.freq > 0
  {
    var armed := c.(clock := Schedule(c.clock, c.now));
    if c.clock.enabled && Overdue(c.clock, c.now) then Alarm(armed) else armed
  }

  // ----- What software, the pins and time can do -----

  datatype Action =
    | AlarmLow(value: nat)
    | AlarmHigh(value: nat, start: bool)
    | State(sleep: bool, clearReject: bool)
    | WakeEnable(sources: set<nat>)
    | IntEnable(mask: set<nat>)
    | IntEnableSet(mask: set<nat>)
    | IntEnableClear(mask: set<nat>)
    | IntClear(mask: set<nat>)
    | ExtWakeup(high: bool)
    | RejectConf(sources: set<nat>, light: bool)
    | Ext1(pins: set<nat>, clear: bool)
    | ClockSwitch(freq: nat)
    | Gpio(pin: nat, level: bool)
    | Reset
    | Elapse(to: nat)
    | TimerFires

  const LOW: nat := 0x1_0000_0000

  /** Time does not pass an armed deadline before the timer has fired. */
  predicate Possible(c: Chip, a: Action) {
    match a
    case AlarmLow(value) => value < LOW
    case AlarmHigh(value, _) => value < 0x1_0000
    case ClockSwitch(freq) => 0 < freq <= SECOND
    case Elapse(to) => c.now <= to && (c.clock.timer.Some? ==> to <= c.clock.timer.value)
    case TimerFires => c.clock.timer == Some(c.now)
    case _ => true
  }

  function Step(c: Chip, a: Action): Chip
    requires Possible(c, a) && c.clock.baseNs <= c.now && c.clock.freq > 0
  {
    var k, p := c.clock, c.power;
    match a
    case AlarmLow(value) => Reschedule(c.(clock := k.(alarm := k.alarm / LOW * LOW + value)))
    case AlarmHigh(value, start) =>
      Reschedule(c.(clock := k.(alarm := value * LOW + k.alarm % LOW, enabled := k.enabled || start)))
    case State(sleep, clear) =>
      var q := p.(sleepRequested := sleep, rejectCause := if clear then {} else p.rejectCause);
      c.(power := if sleep && !p.sleeping then Sleep(q) else q)
    case WakeEnable(sources) => c.(power := Wake(p.(wakeEnable := sources)))
    case IntEnable(mask) => c.(power := UpdateIrq(p.(enable := mask)))
    case IntEnableSet(mask) => c.(power := UpdateIrq(p.(enable := p.enable + mask)))
    case IntEnableClear(mask) => c.(power := UpdateIrq(p.(enable := p.enable - mask)))
    case IntClear(mask) => c.(power := UpdateIrq(p.(raw := p.raw - mask)))
    case ExtWakeup(high) => c.(power := Wake(p.(activeHigh := high)))
    case RejectConf(sources, light) => c.(power := p.(rejectEnable := sources, rejectLight := light))
    case Ext1(pins, clear) => c.(power := Wake(p.(select := pins, ext1Status := if clear then {} else p.ext1Status)))
    case ClockSwitch(freq) => Reschedule(c.(clock := Rebase(k, c.now, freq)))
    case Gpio(pin, level) => c.(power := Wake(p.(gpio := if level then p.gpio + {pin} else p.gpio - {pin})))
    case Reset => ResetChip(c)
    case Elapse(to) => c.(now := to)
    case TimerFires => Alarm(c)
  }

  /** Everything but the pin levels and the clock source starts over. */
  function ResetChip(c: Chip): Chip {
    Chip(c.now, Clock(c.now, 0, c.clock.freq, 0, false, None, 0),
         Power(c.power.gpio, false, {}, {}, {}, {}, false, {}, {}, {}, false, {}, false, false, false))
  }

  ghost predicate Run(c: Chip, actions: seq<Action>, d: Chip)
    decreases |actions|
  {
    if actions == [] then c == d
    else
      && Possible(c, actions[0])
      && c.clock.baseNs <= c.now
      && c.clock.freq > 0
      && Run(Step(c, actions[0]), actions[1..], d)
  }

  // ----- What every run keeps -----

  /** Nothing that could end the sleep is left unnoticed, and the output lines follow the state. */
  predicate PowerOk(p: Power) {
    && (p.sleeping ==> Pending(p) * p.wakeEnable == {})
    && p.sleepLine == p.sleeping
    && (p.irq <==> p.raw * p.enable != {})
  }

  ghost predicate ChipOk(c: Chip) {
    PowerOk(c.power) && ClockOk(c.clock, c.now)
  }

  /** Before a wake-up check only the condition on the sources may be open. */
  predicate LinesOk(p: Power) {
    p.sleepLine == p.sleeping && (p.irq <==> p.raw * p.enable != {})
  }

  lemma {:induction false} WakeSettles(p: Power)
    requires LinesOk(p)
    ensures PowerOk(Wake(p))
    ensures p.sleeping && Pending(p) * p.wakeEnable != {} ==>
      !Wake(p).sleeping && Wake(p).wakeCause == Pending(p) * p.wakeEnable && SLP_WAKEUP in Wake(p).raw
  {
    var q := Wake(p);
    if p.sleeping && Pending(p) * p.wakeEnable != {} { assert !q.sleeping; }
  }

  lemma {:induction false} SleepSettles(p: Power)
    requires LinesOk(p) && !p.sleeping
    ensures PowerOk(Sleep(p))
    ensures Sleep(p).sleeping ==> Pending(p) * p.wakeEnable == {}
  {
    var q := p.(wakeCause := {}, sleeping := true);
    assert Pending(q) == Pending(p);
    if Pending(q) * q.wakeEnable == {} {
      assert Wake(q) == q;
    } else {
      assert !Wake(q).sleeping;
    }
  }

  /** The alarm is reported, and wakes the chip if it is to. */
  lemma {:induction false} RingSettles(p: Power)
    requires PowerOk(p)
    ensures PowerOk(Ring(p)) && MAIN_TIMER in Ring(p).raw
    ensures TIMER_WAKEUP in p.wakeEnable ==> !Ring(p).sleeping
  {
    var q := p.(raw := p.raw + {MAIN_TIMER});
    assert TIMER_WAKEUP in Pending(q);
    if q.sleeping && Pending(q) * q.wakeEnable != {} {
      assert !Wake(q).sleeping;
    } else {
      assert Wake(q) == q;
      assert UpdateIrq(q).raw == q.raw && Pending(UpdateIrq(q)) == Pending(q);
    }
  }

  lemma {:induction false} AlarmKeeps(c: Chip)
    requires PowerOk(c.power) && c.clock.baseNs <= c.now && c.clock.baseTicks < WRAP && c.clock.alarm < WRAP
    requires 0 < c.clock.freq <= SECOND
    ensures ChipOk(Alarm(c))
  {
    RingSettles(c.power);
  }

  lemma {:induction false} RescheduleKeeps(c: Chip)
    requires PowerOk(c.power) && c.clock.baseNs <= c.now && c.clock.baseTicks < WRAP && c.clock.alarm < WRAP
    requires 0 < c.clock.freq <= SECOND
    ensures ChipOk(Reschedule(c))
  {
    hide PowerOk, Punctual, Overdue;
    var armed := c.(clock := Schedule(c.clock, c.now));
    if c.clock.enabled {
      if Overdue(c.clock, c.now) {
        AlarmKeeps(armed);
      } else {
        SchedulesPunctually(c.clock, c.now);
      }
    }
  }

  lemma {:induction false} AlarmParts(alarm: nat, value: nat)
    requires alarm < WRAP
    ensures value < LOW ==> 0 <= alarm / LOW * LOW + value < WRAP
    ensures value < 0x1_0000 ==> 0 <= value * LOW + alarm % LOW < WRAP
  {
  }

  lemma {:induction false} PowerStep(c: Chip, a: Action)
    requires ChipOk(c) && Possible(c, a)
    requires !a.AlarmLow? && !a.AlarmHigh? && !a.ClockSwitch? && !a.Reset? && !a.Elapse? && !a.TimerFires?
    ensures PowerOk(Step(c, a).power)
    ensures Step(c, a) == c.(power := Step(c, a).power)
  {
    var p := c.power;
    hide Wake, Sleep, UpdateIrq, PowerOk, ClockOk, Pending;
    match a {
      case State(sleep, clear) => StateOk(p, sleep, if clear then {} else p.rejectCause);
      case WakeEnable(sources) => WakeOk(p, p.(wakeEnable := sources));
      case ExtWakeup(high) => WakeOk(p, p.(activeHigh := high));
      case Ext1(pins, clear) => WakeOk(p, p.(select := pins, ext1Status := if clear then {} else p.ext1Status));
      case Gpio(pin, level) => WakeOk(p, p.(gpio := if level then p.gpio + {pin} else p.gpio - {pin}));
      case IntEnable(mask) =>
        SameUpdate(p, mask);
        IrqOk(p, mask, p.raw);
      case IntEnableSet(mask) =>
        SameUpdate(p, p.enable + mask);
        IrqOk(p, p.enable + mask, p.raw);
      case IntEnableClear(mask) =>
        SameUpdate(p, p.enable - mask);
        IrqOk(p, p.enable - mask, p.raw);
      case IntClear(mask) =>
        SameClear(p, p.raw - mask);
        IrqOk(p, p.enable, p.raw - mask);
      case RejectConf(sources, light) => RejectOk(p, sources, light);
    }
  }

  lemma {:induction false} SameUpdate(p: Power, enable: set<nat>)
    ensures p.(enable := enable, raw := p.raw) == p.(enable := enable)
  {
  }

  lemma {:induction false} SameClear(p: Power, raw: set<nat>)
    ensures p.(enable := p.enable, raw := raw) == p.(raw := raw)
  {
  }

  /** Software asks for sleep, or takes the request back. */
  lemma {:induction false} StateOk(p: Power, sleep: bool, rejectCause: set<nat>)
    requires PowerOk(p)
    ensures var q := p.(sleepRequested := sleep, rejectCause := rejectCause);
      PowerOk(if sleep && !p.sleeping then Sleep(q) else q)
  {
    hide Sleep;
    var q := p.(sleepRequested := sleep, rejectCause := rejectCause);
    assert Pending(q) == Pending(p);
    if sleep && !p.sleeping { SleepSettles(q); }
  }

  /** Sources, pins or masks change, and the wake-up check follows. */
  lemma {:induction false} WakeOk(p: Power, q: Power)
    requires PowerOk(p) && q.sleepLine == p.sleepLine && q.sleeping == p.sleeping
    requires q.irq == p.irq && q.raw == p.raw && q.enable == p.enable
    ensures PowerOk(Wake(q))
  {
    hide Wake, Pending;
    WakeSettles(q);
  }

  /** Interrupt masks change, or interrupts are cleared, which makes no source active. */
  lemma {:induction false} IrqOk(p: Power, enable: set<nat>, raw: set<nat>)
    requires PowerOk(p) && raw <= p.raw
    ensures PowerOk(UpdateIrq(p.(enable := enable, raw := raw)))
  {
    var q := UpdateIrq(p.(enable := enable, raw := raw));
    assert Pending(q) <= Pending(p);
  }

  lemma {:induction false} RejectOk(p: Power, sources: set<nat>, light: bool)
    requires PowerOk(p)
    ensures PowerOk(p.(rejectEnable := sources, rejectLight := light))
  {
    assert Pending(p.(rejectEnable := sources, rejectLight := light)) == Pending(p);
  }

  lemma {:induction false} ElapseKeeps(c: Chip, to: nat)
    requires ChipOk(c) && Possible(c, Elapse(to))
    ensures ChipOk(Step(c, Elapse(to)))
  {
    CountGrows(c.clock, c.now, to);
    hide Punctual, Count;
  }

  lemma {:induction false} StepKeeps(c: Chip, a: Action)
    requires ChipOk(c) && Possible(c, a)
    ensures ChipOk(Step(c, a))
  {
    var k := c.clock;
    match a {
      case AlarmLow(value) =>
        AlarmParts(k.alarm, value);
        RescheduleKeeps(c.(clock := k.(alarm := k.alarm / LOW * LOW + value)));
      case AlarmHigh(value, start) =>
        AlarmParts(k.alarm, value);
        RescheduleKeeps(c.(clock := k.(alarm := value * LOW + k.alarm % LOW, enabled := k.enabled || start)));
      case ClockSwitch(freq) =>
        RescheduleKeeps(c.(clock := Rebase(k, c.now, freq)));
      case Reset =>
        assert ChipOk(ResetChip(c));
      case Elapse(to) => ElapseKeeps(c, to);
      case TimerFires => AlarmKeeps(c);
      case _ => PowerStep(c, a);
    }
  }

  lemma {:induction false} RunKeeps(c: Chip, actions: seq<Action>, d: Chip)
    requires ChipOk(c) && Run(c, actions, d)
    ensures ChipOk(d)
    decreases |actions|
  {
    hide ChipOk, Step, Possible;
    if actions != [] {
      StepKeeps(c, actions[0]);
      RunKeeps(Step(c, actions[0]), actions[1..], d);
    }
  }

  /** A chip that has just been reset, at any time, with any pin levels and any slow clock. */
  predicate Fresh(c: Chip) {
    c == ResetChip(c) && 0 < c.clock.freq <= SECOND
  }

  /** No wakeup is lost: whatever has happened since the reset, a chip that sleeps has no enabled source active. */
  lemma {:induction false} NoLostWakeup(start: Chip, actions: seq<Action>, c: Chip)
    requires Fresh(start) && Run(start, actions, c)
    ensures c.power.sleeping ==> Pending(c.power) * c.power.wakeEnable == {}
    ensures c.power.sleepLine == c.power.sleeping
    ensures (c.power.irq <==> c.power.raw * c.power.enable != {})
  {
    assert ChipOk(start);
    RunKeeps(start, actions, c);
  }

  /**
    When the timer fires, the counter stands at the programmed tick or past it, and it got there less than a clock
    period and a nanosecond ago; the alarm is then reported, and a chip that is to be woken by it is awake. Time cannot
    pass an enabled alarm by.
   */
  lemma {:induction false} AlarmIsPunctual(start: Chip, actions: seq<Action>, c: Chip)
    requires Fresh(start) && Run(start, actions, c)
    ensures c.clock.enabled <==> c.clock.timer.Some?
    ensures c.clock.timer == Some(c.now) ==>
      && c.clock.baseNs <= c.now
      && c.clock.target <= Count(c.clock, c.now)
      && c.clock.target % WRAP == c.clock.alarm
      && (forall t {:trigger Count(c.clock, t)} ::
            c.clock.baseNs <= t <= c.now && Count(c.clock, t) >= c.clock.target ==>
              (c.now - 1 - t) * c.clock.freq < SECOND)
      && Possible(c, TimerFires)
      && c.clock.freq > 0
      && MAIN_TIMER in Step(c, TimerFires).power.raw
      && (TIMER_WAKEUP in c.power.wakeEnable ==> !Step(c, TimerFires).power.sleeping)
  {
    assert ChipOk(start);
    RunKeeps(start, actions, c);
    hide Count;
    RingSettles(c.power);
  }

  /** Starting an alarm: one that is 1 to 2^47 - 1 ticks ahead is armed for that tick, any other fires at once. */
  lemma {:induction false} AlarmStarts(c: Chip, high: nat)
    requires ChipOk(c) && Possible(c, AlarmHigh(high, true))
    ensures var k := c.clock.(alarm := high * LOW + c.clock.alarm % LOW);
      var ahead, d := Remaining(k, c.now), Step(c, AlarmHigh(high, true));
      && (1 <= ahead < 0x8000_0000_0000 <==> d.clock.enabled)
      && (d.clock.enabled ==>
           d.clock.alarm == k.alarm && d.clock.target == Count(k, c.now) + ahead && d.power == c.power)
      && (!d.clock.enabled ==> MAIN_TIMER in d.power.raw)
  {
    var k := c.clock.(alarm := high * LOW + c.clock.alarm % LOW, enabled := true);
    HalfwayFiresAtOnce(k, c.now);
    assert Remaining(k, c.now) == Remaining(k.(enabled := c.clock.enabled), c.now);
    hide Count, Overdue, Remaining;
    RingSettles(c.power);
  }

  /** The two halves written are the alarm, in whatever order and whatever they make fire. */
  lemma {:induction false} HalvesMakeTheAlarm(c: Chip, low: nat, high: nat, start: bool)
    requires ChipOk(c) && low < LOW && high < 0x1_0000
    ensures ChipOk(Step(c, AlarmLow(low))) && ChipOk(Step(c, AlarmHigh(high, start)))
    ensures Step(Step(c, AlarmLow(low)), AlarmHigh(high, start)).clock.alarm == high * LOW + low
    ensures Step(Step(c, AlarmHigh(high, start)), AlarmLow(low)).clock.alarm == high * LOW + low
  {
    StepKeeps(c, AlarmLow(low));
    StepKeeps(c, AlarmHigh(high, start));
    HalfWritten(c, low, high, start);
    var d, e := Step(c, AlarmLow(low)), Step(c, AlarmHigh(high, start));
    HalfWritten(d, low, high, start);
    HalfWritten(e, low, high, start);
    hide Step, ChipOk;
    Quotient(e.clock.alarm, LOW, high, c.clock.alarm % LOW);
    Quotient(d.clock.alarm, LOW, c.clock.alarm / LOW, low);
  }

  lemma {:induction false} HalfWritten(c: Chip, low: nat, high: nat, start: bool)
    requires ChipOk(c) && low < LOW && high < 0x1_0000
    ensures Step(c, AlarmLow(low)).clock.alarm == c.clock.alarm / LOW * LOW + low
    ensures Step(c, AlarmHigh(high, start)).clock.alarm == high * LOW + c.clock.alarm % LOW
  {
    hide Ring, Schedule, Overdue, PowerOk;
    ScheduleKeepsAlarm();
  }

  lemma {:induction false} ScheduleKeepsAlarm()
    ensures forall k: Clock, now: nat :: k.baseNs <= now && k.freq > 0 ==> Schedule(k, now).alarm == k.alarm
  {
    hide Overdue;
  }

  /**
    Switching the slow clock keeps the counter; an alarm still ahead stays as many ticks ahead, one just reached
    fires.
   */
  lemma {:induction false} SwitchKeepsAlarm(c: Chip, freq: nat)
    requires ChipOk(c) && Possible(c, ClockSwitch(freq))
    ensures var d := Step(c, ClockSwitch(freq));
      && Counter(d.clock, c.now) == Counter(c.clock, c.now)
      && (c.clock.enabled ==>
            && (d.clock.enabled <==> Count(c.clock, c.now) < c.clock.target)
            && (d.clock.enabled ==> d.clock.target - Count(d.clock, c.now) == c.clock.target - Count(c.clock, c.now))
            && (!d.clock.enabled ==> MAIN_TIMER in d.power.raw))
  {
    RebaseKeepsCount(c.clock, c.now, freq);
    if c.clock.enabled { SwitchKeepsDistance(c.clock, c.now, freq); }
    RingSettles(c.power);
    hide Overdue, Remaining, Scale;
  }

  // ----- Pins -----

  /** Some pin selected for EXT1 is at its active level. */
  predicate PinActive(p: Power) {
    exists pin :: pin in p.select && (pin in p.gpio <==> p.activeHigh)
  }

  lemma {:induction false} PinActiveMeans(p: Power)
    ensures PinActive(p) <==> EXT1_WAKEUP in Pending(p)
    ensures MAIN_TIMER in p.raw <==> TIMER_WAKEUP in Pending(p)
    ensures Pending(p) <= {EXT1_WAKEUP, TIMER_WAKEUP}
  {
    if PinActive(p) {
      var pin :| pin in p.select && (pin in p.gpio <==> p.activeHigh);
      assert pin in Ext1Active(p);
    }
    if Ext1Active(p) != {} {
      var pin :| pin in Ext1Active(p);
      assert pin in p.select && (pin in p.gpio <==> p.activeHigh);
    }
  }

  /**
    In every run a chip that sleeps with EXT1 enabled has every selected pin at its inactive level, and one that is to
    be woken by the timer has no alarm reported.
   */
  lemma {:induction false} SleepersPinsAreInactive(start: Chip, actions: seq<Action>, c: Chip)
    requires Fresh(start) && Run(start, actions, c) && c.power.sleeping
    ensures EXT1_WAKEUP in c.power.wakeEnable ==>
      forall pin :: pin in c.power.select ==> (pin in c.power.gpio <==> !c.power.activeHigh)
    ensures TIMER_WAKEUP in c.power.wakeEnable ==> MAIN_TIMER !in c.power.raw
  {
    hide Run;
    NoLostWakeup(start, actions, c);
    PinActiveMeans(c.power);
    hide Pending;
    assert EXT1_WAKEUP in c.power.wakeEnable ==> EXT1_WAKEUP !in Pending(c.power) * c.power.wakeEnable;
    assert TIMER_WAKEUP in c.power.wakeEnable ==> TIMER_WAKEUP !in Pending(c.power) * c.power.wakeEnable;
    if EXT1_WAKEUP in c.power.wakeEnable {
      forall pin | pin in c.power.select
        ensures pin in c.power.gpio <==> !c.power.activeHigh
      {
        assert !PinActive(c.power);
      }
    }
  }

  /**
    In every run, a pin change ends the sleep exactly when EXT1 is enabled, the pin is selected, and the level is the
    active one; the cause is then EXT1 alone, and the status names the pin.
   */
  lemma {:induction false} PinWakesExactly(start: Chip, actions: seq<Action>, c: Chip, pin: nat, level: bool)
    requires Fresh(start) && Run(start, actions, c) && c.power.sleeping
    ensures c.clock.baseNs <= c.now && c.clock.freq > 0
    ensures var d := Step(c, Gpio(pin, level)).power;
      && (!d.sleeping <==>
            EXT1_WAKEUP in c.power.wakeEnable && pin in c.power.select && level == c.power.activeHigh)
      && (!d.sleeping ==> d.wakeCause == {EXT1_WAKEUP} && d.ext1Status == {pin})
  {
    assert ChipOk(start);
    RunKeeps(start, actions, c);
    hide Run, Punctual;
    NoLostWakeup(start, actions, c);
    PinWakes(c.power, pin, level);
  }

  lemma {:induction false} PinWakes(p: Power, pin: nat, level: bool)
    requires p.sleeping && Pending(p) * p.wakeEnable == {}
    ensures var q := p.(gpio := if level then p.gpio + {pin} else p.gpio - {pin});
      && (!Wake(q).sleeping <==> EXT1_WAKEUP in p.wakeEnable && pin in p.select && level == p.activeHigh)
      && (!Wake(q).sleeping ==> Wake(q).wakeCause == {EXT1_WAKEUP} && Wake(q).ext1Status == {pin})
  {
    var q := p.(gpio := if level then p.gpio + {pin} else p.gpio - {pin});
    PinChanges(p, q, pin, level);
    PinActiveMeans(p);
    PinActiveMeans(q);
    WakesFor(q);
    hide Wake, Ext1Active, Pending, PinActive;
    assert EXT1_WAKEUP in p.wakeEnable ==> EXT1_WAKEUP !in Pending(p) * p.wakeEnable;
    assert TIMER_WAKEUP in p.wakeEnable ==> TIMER_WAKEUP !in Pending(p) * p.wakeEnable;
    assert TIMER_WAKEUP in Pending(q) <==> TIMER_WAKEUP in Pending(p);
    assert Pending(q) * q.wakeEnable == if EXT1_WAKEUP in p.wakeEnable && EXT1_WAKEUP in Pending(q) then {EXT1_WAKEUP}
           else {};
  }

  lemma {:induction false} WakesFor(q: Power)
    requires q.sleeping
    ensures !Wake(q).sleeping <==> Pending(q) * q.wakeEnable != {}
    ensures !Wake(q).sleeping ==> Wake(q).wakeCause == Pending(q) * q.wakeEnable
    ensures !Wake(q).sleeping && EXT1_WAKEUP in Wake(q).wakeCause ==> Wake(q).ext1Status == Ext1Active(q)
  {
  }

  /** With all selected pins inactive before, a change makes at most this one active. */
  lemma {:induction false} PinChanges(p: Power, q: Power, pin: nat, level: bool)
    requires q == p.(gpio := if level then p.gpio + {pin} else p.gpio - {pin})
    requires EXT1_WAKEUP in p.wakeEnable ==> EXT1_WAKEUP !in Pending(p) * p.wakeEnable
    ensures EXT1_WAKEUP in p.wakeEnable ==>
      Ext1Active(q) == if pin in p.select && level == p.activeHigh then {pin} else {}
    ensures EXT1_WAKEUP in p.wakeEnable ==>
      (EXT1_WAKEUP in Pending(q) <==> pin in p.select && level == p.activeHigh)
  {
    if EXT1_WAKEUP in p.wakeEnable {
      assert Ext1Active(p) == {};
      forall k
        ensures k in Ext1Active(q) <==> k == pin && pin in p.select && level == p.activeHigh
      {
        assert k !in Ext1Active(p);
      }
    }
  }

  /**
    A request to sleep is refused exactly when refusals are on and one of the sources selected for them is active: a
    selected pin at its active level, or the reported alarm.
   */
  lemma {:induction false} SleepRefusedExactly(p: Power)
    requires !p.sleeping && SLP_REJECT !in p.raw
    ensures SLP_REJECT in Sleep(p).raw <==>
      && p.rejectLight
      && ((EXT1_WAKEUP in p.rejectEnable && PinActive(p))
          || (TIMER_WAKEUP in p.rejectEnable && MAIN_TIMER in p.raw))
    ensures SLP_REJECT in Sleep(p).raw ==>
      && !Sleep(p).sleeping
      && (forall x :: x in Sleep(p).rejectCause ==> x == EXT1_WAKEUP || x == TIMER_WAKEUP)
      && (EXT1_WAKEUP in Sleep(p).rejectCause <==> EXT1_WAKEUP in p.rejectEnable && PinActive(p))
      && (TIMER_WAKEUP in Sleep(p).rejectCause <==> TIMER_WAKEUP in p.rejectEnable && MAIN_TIMER in p.raw)
  {
    PinActiveMeans(p);
    hide Pending, PinActive;
    assert Pending(p) * p.rejectEnable != {} <==>
           (EXT1_WAKEUP in Pending(p) && EXT1_WAKEUP in p.rejectEnable)
           || (TIMER_WAKEUP in Pending(p) && TIMER_WAKEUP in p.rejectEnable) by {
      if x :| x in Pending(p) * p.rejectEnable { assert x == EXT1_WAKEUP || x == TIMER_WAKEUP; }
      assert EXT1_WAKEUP in Pending(p) && EXT1_WAKEUP in p.rejectEnable ==> EXT1_WAKEUP in Pending(p) * p.rejectEnable;
      assert TIMER_WAKEUP in Pending(p) && TIMER_WAKEUP in p.rejectEnable ==>
        TIMER_WAKEUP in Pending(p) * p.rejectEnable;
    }
  }
}
