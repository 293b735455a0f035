/** The RTC controller itself: register writes, pin changes and the timer change its state in place. */
module Esp32s3RtcDevice {
  import opened Bits
  import opened RtcClock
  import opened LightSleep

  /** Each register write, pin change and alarm is a step of the chip, and keeps what its runs keep. */
  class Esp32s3Rtc {
    var clock: Clock
    var power: Power

    function View(now: nat): Chip
      reads this
    {
      Chip(now, clock, power)
    }

    constructor (now: nat, freq: nat, pins: set<nat>)
      requires 0 < freq <= SECOND
      ensures Fresh(View(now))
    {
      clock := Clock(now, 0, freq, 0, false, None, 0);
      power := Power(pins, false, {}, {}, {}, {}, false, {}, {}, {}, false, {}, false, false, false);
    }

    method UpdateIrqLine()
      modifies `power
      ensures power == UpdateIrq(old(power))
    {
      power := power.(irq := power.raw * power.enable != {});
    }

    method WakeUp()
      modifies `power
      ensures power == Wake(old(power))
    {
      var cause := Pending(power) * power.wakeEnable;
      if !power.sleeping || cause == {} { return; }
      power := power.(wakeCause := cause);
      if EXT1_WAKEUP in cause { power := power.(ext1Status := Ext1Active(power)); }
      power := power.(raw := power.raw + {SLP_WAKEUP}, sleepRequested := false, sleeping := false, sleepLine := false);
      UpdateIrqLine();
    }

    method GoToSleep()
      modifies `power
      ensures power == Sleep(old(power))
    {
      var reject := Pending(power) * power.rejectEnable;
      power := power.(wakeCause := {});
      if reject != {} && power.rejectLight {
        power := power.(rejectCause := reject, sleepRequested := false, raw := power.raw + {SLP_REJECT});
        UpdateIrqLine();
        return;
      }
      power := power.(sleeping := true);
      WakeUp();
      power := power.(sleepLine := power.sleeping);
    }

    method AlarmFires(ghost now: nat)
      modifies `clock, `power
      ensures View(now) == Alarm(old(View(now)))
    {
      clock := clock.(enabled := false, timer := None);
      power := power.(raw := power.raw + {MAIN_TIMER});
      WakeUp();
      UpdateIrqLine();
    }

    method ScheduleAlarm(now: nat)
      requires clock.baseNs <= now && clock.freq > 0
      modifies `clock, `power
      ensures View(now) == Reschedule(old(View(now)))
    {
      clock := clock.(timer := None);
      if !clock.enabled { return; }
      var ticks := (clock.alarm - Counter(clock, now)) % WRAP;
      if ticks == 0 || ticks > (WRAP - 1) / 2 {
        AlarmFires(now);
        return;
      }
      var delay := Scale(ticks, SECOND, clock.freq);
      clock := clock.(timer := Some(now + delay + 1), target := Count(clock, now) + ticks);
    }

    method WriteAlarmLow(now: nat, value: nat)
      requires clock.baseNs <= now && clock.freq > 0 && Possible(View(now), AlarmLow(value))
      modifies `clock, `power
      ensures View(now) == Step(old(View(now)), AlarmLow(value))
      ensures old(ChipOk(View(now))) ==> ChipOk(View(now))
    {
      ghost var was := View(now);
      if ChipOk(was) { StepKeeps(was, AlarmLow(value)); }
      hide ChipOk;
      clock := clock.(alarm := clock.alarm / LOW * LOW + value);
      ScheduleAlarm(now);
    }

    method WriteAlarmHigh(now: nat, value: nat, start: bool)
      requires clock.baseNs <= now && clock.freq > 0 && Possible(View(now), AlarmHigh(value, start))
      modifies `clock, `power
      ensures View(now) == Step(old(View(now)), AlarmHigh(value, start))
      ensures old(ChipOk(View(now))) ==> ChipOk(View(now))
    {
      ghost var was := View(now);
      if ChipOk(was) { StepKeeps(was, AlarmHigh(value, start)); }
      hide ChipOk;
      clock := clock.(alarm := value * LOW + clock.alarm % LOW);
      if start { clock := clock.(enabled := true); }
      ScheduleAlarm(now);
    }

    method WriteState(now: nat, sleep: bool, clearReject: bool)
      requires clock.baseNs <= now && clock.freq > 0
      modifies `power
      ensures View(now) == Step(old(View(now)), State(sleep, clearReject))
      ensures old(ChipOk(View(now))) ==> ChipOk(View(now))
    {
      ghost var was := View(now);
      if ChipOk(was) { StepKeeps(was, State(sleep, clearReject)); }
      hide ChipOk;
      power := power.(sleepRequested := sleep);
      if clearReject { power := power.(rejectCause := {}); }
      if sleep && !power.sleeping { GoToSleep(); }
    }

    method WriteWakeEnable(now: nat, sources: set<nat>)
      requires clock.baseNs <= now && clock.freq > 0
      modifies `power
      ensures View(now) == Step(old(View(now)), WakeEnable(sources))
      ensures old(ChipOk(View(now))) ==> ChipOk(View(now))
    {
      ghost var was := View(now);
      if ChipOk(was) { StepKeeps(was, WakeEnable(sources)); }
      hide ChipOk;
      power := power.(wakeEnable := sources);
      WakeUp();
    }

    method WriteExt1(now: nat, pins: set<nat>, clear: bool)
      requires clock.baseNs <= now && clock.freq > 0
      modifies `power
      ensures View(now) == Step(old(View(now)), Ext1(pins, clear))
      ensures old(ChipOk(View(now))) ==> ChipOk(View(now))
    {
      ghost var was := View(now);
      if ChipOk(was) { StepKeeps(was, Ext1(pins, clear)); }
      hide ChipOk;
      power := power.(select := pins);
      if clear { power := power.(ext1Status := {}); }
      WakeUp();
    }

    method WriteClockConf(now: nat, freq: nat)
      requires clock.baseNs <= now && clock.freq > 0 && Possible(View(now), ClockSwitch(freq))
      modifies `clock, `power
      ensures View(now) == Step(old(View(now)), ClockSwitch(freq))
      ensures old(ChipOk(View(now))) ==> ChipOk(View(now))
    {
      ghost var was := View(now);
      if ChipOk(was) { StepKeeps(was, ClockSwitch(freq)); }
      hide ChipOk;
      clock := clock.(baseTicks := Counter(clock, now), baseNs := now);
      clock := clock.(freq := freq);
      ScheduleAlarm(now);
    }

    method GpioInput(now: nat, pin: nat, level: bool)
      requires clock.baseNs <= now && clock.freq > 0
      modifies `power
      ensures View(now) == Step(old(View(now)), Gpio(pin, level))
      ensures old(ChipOk(View(now))) ==> ChipOk(View(now))
    {
      ghost var was := View(now);
      if ChipOk(was) { StepKeeps(was, Gpio(pin, level)); }
      hide ChipOk;
      power := power.(gpio := if level then power.gpio + {pin} else power.gpio - {pin});
      WakeUp();
    }
  }
}
