/** The RX8130CE real-time clock: calendar, STOP and minute-carry alarms behind an I2C register file. */
module Rx8130ceDevice {
  import opened Bits
  import opened Calendar
  import opened Weekday
  import opened Alarm

  const SECONDS: int := 0x10
  const YEAR: int := 0x16
  const MINUTE_ALARM: int := 0x17
  const HOUR_ALARM: int := 0x18
  const DAY_ALARM: int := 0x19
  const EXTENSION: int := 0x1C
  const FLAG: int := 0x1D
  const CONTROL: int := 0x1E

  // Bit numbers within FLAG, CONTROL and EXTENSION.
  const VOLTAGE_LOW: nat := 1
  const ALARM_FLAG: nat := 3
  const ALARM_ENABLE: nat := 3
  const STOP: nat := 6
  const BY_DATE: nat := 3

  datatype I2cEvent = StartSend | StartReceive | Finish

  /**
    Methods that read the host clock take the reading as `now`; the clock never runs backwards.
    Three ghost records are kept apart from the device's own base times, to be compared with them:
    the last committed (or initial) time, the running time accumulated since, and the weekday then.
   */
  class Rx8130ce {
    const registers: array<Byte>
    var registerAddress: Byte
    var registerPhase: bool
    var baseTimeNs: int
    var baseClockNs: int
    var week: Byte
    var dirty: bool
    var secondsWritten: bool
    var alarmTimer: Option<int>
    var irq: bool

    ghost var clock: int
    ghost var committedNs: int
    ghost var ranNs: int
    ghost var committedWeek: Byte

    predicate Stopped()
      requires registers.Length == 256
      reads registers
    {
      Bit(registers[CONTROL], STOP)
    }

    predicate AlarmFlagged()
      requires registers.Length == 256
      reads registers
    {
      Bit(registers[FLAG], ALARM_FLAG)
    }

    function CalendarTimeNs(now: int): int
      requires registers.Length == 256
      reads `baseTimeNs, `baseClockNs, registers
    {
      if Stopped() then baseTimeNs else baseTimeNs + now - baseClockNs
    }

    /** What the alarm is compared with. */
    function AlarmSettings(): Settings
      requires registers.Length == 256 && baseTimeNs >= 0
      reads `baseTimeNs, `week, registers
    {
      Settings(registers[MINUTE_ALARM], registers[HOUR_ALARM], registers[DAY_ALARM],
               Bit(registers[EXTENSION], BY_DATE), week, baseTimeNs / 1_000_000_000 / 86400)
    }

    function CalendarFace(): Face
      requires registers.Length == 256
      reads registers
    {
      Face(registers[0x10], registers[0x11], registers[0x12], registers[0x13], registers[0x14], registers[0x15],
        registers[0x16])
    }

    /** The face of the running clock. */
    function FaceNow(now: int): Face
      requires registers.Length == 256 && CalendarTimeNs(now) >= 0
      reads `baseTimeNs, `baseClockNs, `week, registers
    {
      var seconds := CalendarTimeNs(now) / 1_000_000_000;
      FaceAt(seconds, WeekAt(week, baseTimeNs / 1_000_000_000 / 86400, DayIndex(seconds)))
    }

    ghost predicate Base()
      reads `baseTimeNs, `baseClockNs, `week, `clock, registers
    {
      registers.Length == 256 && baseTimeNs >= 0 && week < 128 && baseClockNs <= clock
    }

    /** Armed exactly when running, not already flagged, and set to something that can match. */
    ghost predicate ShouldArm()
      requires registers.Length == 256 && baseTimeNs >= 0
      reads `baseTimeNs, `week, registers
    {
      !Stopped() && !AlarmFlagged() && Accepts(AlarmSettings())
    }

    /** The calendar second at which the armed timer expires. */
    ghost function AlarmSecond(): int
      requires alarmTimer.Some?
      reads `alarmTimer, `baseTimeNs, `baseClockNs
    {
      (alarmTimer.value - baseClockNs + baseTimeNs) / 1_000_000_000
    }

    /** The deadline falls on a matching minute boundary, and no match still ahead comes before it. */
    ghost predicate AlarmSound()
      requires Base()
      reads `baseTimeNs, `baseClockNs, `week, `clock, `alarmTimer, `irq, registers
    {
      && irq == !(AlarmFlagged() && Bit(registers[CONTROL], ALARM_ENABLE))
      && (alarmTimer.Some? <==> ShouldArm())
      && (alarmTimer.Some? ==>
          var t := AlarmSecond();
          && t >= 0
          && alarmTimer.value == baseClockNs + t * 1_000_000_000 - baseTimeNs
          && Matches(AlarmSettings(), t)
          && forall u: nat :: Matches(AlarmSettings(), u) && u * 1_000_000_000 > CalendarTimeNs(clock) ==> u >= t)
    }

    /** Calendar and weekday are those last committed, carried forward by the running time since. */
    ghost predicate Conserved()
      requires Base()
      reads `baseTimeNs, `baseClockNs, `week, `clock, `committedNs, `ranNs, `committedWeek, registers
    {
      && committedNs >= 0 && committedWeek < 128
      && CalendarTimeNs(clock) == committedNs + ranNs
      && forall day: nat ::
           WeekAt(week, baseTimeNs / 1_000_000_000 / 86400, day) ==
             WeekAt(committedWeek, committedNs / 1_000_000_000 / 86400, day)
    }

    ghost predicate Valid()
      reads `baseTimeNs, `baseClockNs, `week, `clock, `alarmTimer, `irq, `committedNs, `ranNs, `committedWeek, registers
    {
      Base() && AlarmSound() && Conserved()
    }

    /** Time passes; the timer has not been served. */
    ghost method Advance(now: int)
      requires Valid() && now >= clock
      modifies this`clock, this`ranNs
      ensures Valid() && clock == now
      ensures ranNs == old(ranNs) + if Stopped() then 0 else now - old(clock)
      ensures CalendarTimeNs(now) >= old(CalendarTimeNs(clock))
    {
      ranNs := ranNs + if Stopped() then 0 else now - clock;
      clock := now;
    }

    /** Before its deadline an armed timer waits for the first match strictly after the calendar time. */
    lemma {:induction false} ArmedForNext()
      requires Valid() && alarmTimer.Some? && clock < alarmTimer.value
      ensures CalendarTimeNs(clock) >= 0 && AlarmSecond() >= 0
      ensures IsNext(AlarmSettings(), CalendarTimeNs(clock) / 1_000_000_000, AlarmSecond())
    {
      var now, t := CalendarTimeNs(clock), AlarmSecond();
      assert now < t * 1_000_000_000;
      forall u: nat | now / 1_000_000_000 < u < t
        ensures !Matches(AlarmSettings(), u)
      {
        assert u >= now / 1_000_000_000 + 1;
        assert u * 1_000_000_000 > now;
      }
    }

    method UpdateAlarm(now: int)
      requires Base() && clock == now
      modifies this`alarmTimer, this`irq
      ensures AlarmSound()
      ensures alarmTimer.Some? ==>
                CalendarTimeNs(now) >= 0 && AlarmSecond() >= 0 &&
                IsNext(AlarmSettings(), CalendarTimeNs(now) / 1_000_000_000, AlarmSecond())
    {
      irq := !(Bit(registers[FLAG], ALARM_FLAG) && Bit(registers[CONTROL], ALARM_ENABLE));
      alarmTimer := None;
      if Bit(registers[CONTROL], STOP) || Bit(registers[FLAG], ALARM_FLAG) { return; }

      var minute := FromBcd(registers[MINUTE_ALARM] % 0x80);
      var hour := FromBcd(registers[HOUR_ALARM] % 0x40);
      var day := FromBcd(registers[DAY_ALARM] % 0x40);
      if !Masked(registers[MINUTE_ALARM]) && (minute > 59 || registers[MINUTE_ALARM] % 16 > 9) { return; }
      if !Masked(registers[HOUR_ALARM]) && (hour > 23 || registers[HOUR_ALARM] % 16 > 9) { return; }
      if !Masked(registers[DAY_ALARM]) {
        if Bit(registers[EXTENSION], BY_DATE) {
          if day == 0 || day > 31 || registers[DAY_ALARM] % 16 > 9 { return; }
        } else if registers[DAY_ALARM] % 0x80 == 0 || week == 0 {
          return;
        }
      }

      var seconds: nat := CalendarTimeNs(now) / 1_000_000_000;
      var next := NextMatch(AlarmSettings(), seconds);
      alarmTimer := Some(baseClockNs + next * 1_000_000_000 - baseTimeNs);
      assert AlarmSecond() == next;
      AheadIsLater(seconds, CalendarTimeNs(now));
    }

    static lemma AheadIsLater(s: nat, ns: int)
      requires s == ns / 1_000_000_000 && ns >= 0
      ensures forall u: nat :: u * 1_000_000_000 > ns ==> u > s
    {
    }

    /** `1 << weekday`. */
    static function OneHot(weekday: nat): (week: Byte)
      requires weekday < 7
      ensures week < 128
    {
      [1, 2, 4, 8, 16, 32, 64][weekday]
    }

    constructor (seconds: nat, weekday: nat, now: int)
      requires weekday < 7 && now >= 0
      ensures Valid()
      ensures fresh(registers)
      ensures clock == now
      ensures CalendarTimeNs(now) == seconds * 1_000_000_000 + now % 1_000_000_000
      ensures week == committedWeek == OneHot(weekday)
    {
      registers := new Byte[256](_ => 0);
      registerAddress, registerPhase := 0, false;
      baseClockNs := now;
      baseTimeNs := seconds * 1_000_000_000 + now % 1_000_000_000;
      week := OneHot(weekday);
      dirty, secondsWritten := false, false;
      alarmTimer, irq := None, true;
      clock, committedNs, ranNs, committedWeek := now, seconds * 1_000_000_000
        + now % 1_000_000_000, 0, OneHot(weekday);
      new;
      hide AlarmSound, Conserved, FaceNow, Bit;
      BitOfZero(STOP);
      PowerUp(now);
    }

    /** Brings registers and alarm into line with a time that was just set. */
    method PowerUp(now: int)
      requires Base() && clock == now
      requires baseTimeNs == committedNs && baseClockNs == clock && week == committedWeek && ranNs == 0
      modifies registers, `alarmTimer, `irq
      ensures Valid() && CalendarTimeNs(now) == old(CalendarTimeNs(now))
    {
      hide AlarmSound, Conserved, FaceNow, Bit;
      SetAnew();
      Snapshot(now);
      UpdateAlarm(now);
      SetAnew();
    }

    /** Nothing has run since the time was set. */
    lemma SetAnew()
      requires Base() && baseTimeNs == committedNs && baseClockNs == clock && week == committedWeek && ranNs == 0
      ensures Conserved()
    {
      hide Bit, WeekAt;
    }

    /** The timer callback, at its deadline or however late the host serves it. */
    method AlarmExpired(now: int)
      requires Valid() && now >= clock && alarmTimer.Some? && now >= alarmTimer.value
      modifies this, registers
      ensures Valid() && AlarmFlagged() && alarmTimer == None
      ensures old(AlarmSecond()) >= 0
      ensures Matches(old(AlarmSettings()), old(AlarmSecond()))
      ensures CalendarTimeNs(now) >= old(AlarmSecond()) * 1_000_000_000
      ensures irq == (!Bit(registers[CONTROL], ALARM_ENABLE))
      ensures forall i :: 0 <= i < 256 && i != FLAG ==> registers[i] == old(registers[i])
      ensures registers[FLAG] == SetBit(old(registers[FLAG]), ALARM_FLAG)
    {
      Advance(now);
      SetBitOfByte(registers[FLAG], ALARM_FLAG);
      SetBitBits(registers[FLAG], ALARM_FLAG, ALARM_FLAG);
      registers[FLAG] := SetBit(registers[FLAG], ALARM_FLAG);
      UpdateAlarm(now);
    }

    /** The clock, its weekday and the ghost records are as before. */
    twostate predicate TimekeepingKept()
      reads `baseTimeNs, `baseClockNs, `week, `committedNs, `ranNs, `committedWeek
    {
      && baseTimeNs == old(baseTimeNs)
      && baseClockNs == old(baseClockNs)
      && week == old(week)
      && committedNs == old(committedNs)
      && ranNs == old(ranNs)
      && committedWeek == old(committedWeek)
    }

    /** Writing the calendar registers changes nothing that time, alarm and interrupt depend on. */
    twostate lemma CalendarIsApart()
      requires registers.Length == 256
      requires TimekeepingKept()
      requires clock == old(clock) && alarmTimer == old(alarmTimer) && irq == old(irq)
      requires forall i :: 0 <= i < 256 && !(SECONDS <= i <= YEAR) ==> registers[i] == old(registers[i])
      ensures CalendarTimeNs(clock) == old(CalendarTimeNs(clock))
      ensures old(CalendarTimeNs(clock)) >= 0 ==> FaceNow(clock) == old(FaceNow(clock))
      ensures old(Base() && AlarmSound()) ==> Base() && AlarmSound()
      ensures old(Base() && Conserved()) ==> Base() && Conserved()
    {
      assert Stopped() == old(Stopped()) && AlarmFlagged() == old(AlarmFlagged());
      hide Bit;
      if baseTimeNs >= 0 { assert AlarmSettings() == old(AlarmSettings()); }
      hide Matches, WeekAt, Accepts;
    }

    method ShowFace(face: Face)
      requires registers.Length == 256
      modifies registers
      ensures CalendarFace() == face
      ensures forall i :: 0 <= i < 256 && !(SECONDS <= i <= YEAR) ==> registers[i] == old(registers[i])
    {
      registers[SECONDS], registers[0x11], registers[0x12] := face.second, face.minute, face.hour;
      registers[0x13] := face.week;
      registers[0x14], registers[0x15], registers[YEAR] := face.day, face.month, face.year;
    }

    /** Loads the calendar registers, unless a write to them is pending or the clock is stopped. */
    method Snapshot(now: int)
      requires Base() && clock == now
      modifies registers
      ensures CalendarFace() == if dirty || Stopped() then old(CalendarFace()) else FaceNow(now)
      ensures CalendarTimeNs(now) == old(CalendarTimeNs(now))
      ensures (old(AlarmSound()) ==> AlarmSound())
      ensures (old(Conserved()) ==> Conserved())
      ensures forall i :: 0 <= i < 256 && !(SECONDS <= i <= YEAR) ==> registers[i] == old(registers[i])
    {
      hide AlarmSound, Conserved, FaceNow, Bit;
      if dirty || Bit(registers[CONTROL], STOP) { return; }
      ShowFace(FaceNow(now));
      CalendarIsApart();
    }

    /** Is there a written calendar to take over now? */
    ghost predicate Pending()
      requires registers.Length == 256
      reads `dirty, registers
    {
      dirty && !Stopped()
    }

    /** Restarts the clock at a committed time. */
    method SetCalendar(timeNs: int, weekday: Byte, now: int)
      requires Base() && clock == now && timeNs >= 0 && weekday < 128
      modifies `baseTimeNs, `baseClockNs, `week, `alarmTimer, `irq, `committedNs, `ranNs, `committedWeek
      ensures Valid()
      ensures week == weekday
      ensures committedNs == timeNs
      ensures ranNs == 0
      ensures CalendarTimeNs(now) == timeNs
    {
      baseTimeNs, baseClockNs, week := timeNs, now, weekday;
      committedNs, ranNs, committedWeek := timeNs, 0, weekday;
      UpdateAlarm(now);
    }

    /** An invalid calendar raises VLF; the running one goes on. */
    method RejectCalendar()
      requires Base() && Conserved()
      modifies registers
      ensures Base() && Conserved() && (old(AlarmSound()) ==> AlarmSound())
      ensures registers[FLAG] == SetBit(old(registers[FLAG]), VOLTAGE_LOW)
      ensures forall i :: 0 <= i < 256 && i != FLAG ==> registers[i] == old(registers[i])
    {
      SetBitOfByte(registers[FLAG], VOLTAGE_LOW);
      SetBitBits(registers[FLAG], VOLTAGE_LOW, ALARM_FLAG);
      registers[FLAG] := SetBit(registers[FLAG], VOLTAGE_LOW);
    }

    /** Takes over the written calendar, if there is one and the clock is not stopped. */
    method Commit(now: int)
      requires Base() && Conserved() && clock == now
      modifies registers, `baseTimeNs, `baseClockNs, `week, `dirty, `secondsWritten, `alarmTimer, `irq
      modifies `committedNs, `ranNs, `committedWeek
      ensures Base() && Conserved() && (old(AlarmSound()) ==> AlarmSound())
      ensures forall i :: 0 <= i < 256 && i != FLAG ==> registers[i] == old(registers[i])
      ensures dirty == (old(dirty) && Stopped())
      ensures secondsWritten == (old(secondsWritten) && !old(Pending()))
      ensures registers[FLAG] == if old(Pending()) && !FaceValid(old(CalendarFace()))
                                 then SetBit(old(registers[FLAG]), VOLTAGE_LOW) else old(registers[FLAG])
      ensures if old(Pending()) && FaceValid(old(CalendarFace()))
              then CalendarTimeNs(now) == FaceSeconds(old(CalendarFace())) * 1_000_000_000 +
                     (if old(secondsWritten) then 0 else old(CalendarTimeNs(now)) % 1_000_000_000) &&
                   week == old(registers[0x13]) % 0x80 && committedNs == CalendarTimeNs(now) && ranNs == 0
              else TimekeepingKept()
    {
      if !dirty || Bit(registers[CONTROL], STOP) { return; }

      var face := CalendarFace();
      var fractionNs := if secondsWritten then 0 else CalendarTimeNs(now) % 1_000_000_000;
      dirty, secondsWritten := false, false;
      if !FaceValid(face) {
        RejectCalendar();
        return;
      }
      SetCalendar(FaceSeconds(face) * 1_000_000_000 + fractionNs, registers[0x13] % 0x80, now);
    }

    /** An I2C start brings the calendar registers up to date; a stop takes over what was written. */
    method DeviceEvent(event: I2cEvent, now: int)
      requires Valid() && now >= clock
      modifies this, registers
      ensures Valid() && clock == now
      ensures registerPhase == (old(registerPhase) || event.StartSend?)
      ensures registerAddress == old(registerAddress)
      ensures forall i :: 0 <= i < 256 && i != FLAG && !(SECONDS <= i <= YEAR) ==> registers[i] == old(registers[i])
      ensures CalendarTimeNs(now) >= 0
      ensures CalendarFace() == if event.Finish? || Stopped() then old(CalendarFace()) else FaceNow(now)
    {
      hide AlarmSound, Conserved, FaceValid, FaceSeconds, FaceNow, Bit;
      Advance(now);
      Commit(now);
      if event != Finish { Snapshot(now); }
      if event == StartSend { registerPhase := true; }
    }

    method DeviceReceive() returns (value: Byte)
      requires Valid()
      modifies `registerAddress
      ensures Valid() && value == registers[old(registerAddress)]
      ensures registerAddress == (old(registerAddress) + 1) % 256
    {
      value := registers[registerAddress];
      registerAddress := (registerAddress + 1) % 256;
    }

    /** FLAG bits are cleared by writing 0 and never set by writing. */
    method WriteFlag(value: Byte, now: int)
      requires Valid() && clock == now
      modifies registers, `alarmTimer, `irq
      ensures Valid() && registers[FLAG] == And(old(registers[FLAG]), value)
      ensures AlarmFlagged() == (old(AlarmFlagged()) && Bit(value, ALARM_FLAG))
      ensures forall i :: 0 <= i < 256 && i != FLAG ==> registers[i] == old(registers[i])
    {
      AndBit(registers[FLAG], value, ALARM_FLAG);
      registers[FLAG] := And(registers[FLAG], value);
      UpdateAlarm(now);
    }

    /** Moves the base to the present, so that STOP can change without a jump in time or weekday. */
    method Rebase(now: int)
      requires Base() && Conserved() && clock == now
      modifies `baseTimeNs, `baseClockNs, `week
      ensures Base() && Conserved()
      ensures baseTimeNs == old(CalendarTimeNs(now)) && baseClockNs == now
    {
      var timeNs := CalendarTimeNs(now);
      var seconds := timeNs / 1_000_000_000;
      ghost var oldWeek, oldDay := week, baseTimeNs / 1_000_000_000 / 86400;
      WeekAtCountsMidnights(week, oldDay, seconds / 86400);
      week := WeekAt(week, baseTimeNs / 1_000_000_000 / 86400, seconds / 86400);
      baseTimeNs := timeNs;
      baseClockNs := now;
      forall day: nat
        ensures WeekAt(week, timeNs / 1_000_000_000 / 86400, day) == WeekAt(oldWeek, oldDay, day)
      {
        RebaseKeepsWeek(oldWeek, oldDay, seconds / 86400, day);
      }
    }

    /** The new CONTROL value; a change of STOP freezes or resumes time where it stands. */
    method ToggleStop(value: Byte, now: int)
      requires Base() && Conserved() && clock == now
      modifies registers, `baseTimeNs, `baseClockNs, `week
      ensures Base()
      ensures Conserved()
      ensures CalendarTimeNs(now) == old(CalendarTimeNs(now))
      ensures registers[CONTROL] == value
      ensures forall i :: 0 <= i < 256 && i != CONTROL ==> registers[i] == old(registers[i])
    {
      if Bit(registers[CONTROL], STOP) != Bit(value, STOP) { Rebase(now); }
      registers[CONTROL] := value;
    }

    /** Commits what was written and shows what is then current. */
    method TakeOver(now: int)
      requires Base() && Conserved() && clock == now
      modifies registers, `baseTimeNs, `baseClockNs, `week, `dirty, `secondsWritten, `alarmTimer, `irq
      modifies `committedNs, `ranNs, `committedWeek
      ensures Base() && Conserved()
      ensures Stopped() == old(Stopped())
      ensures forall i :: 0 <= i < 256 && i != FLAG && !(SECONDS <= i <= YEAR) ==> registers[i] == old(registers[i])
      ensures dirty == (old(dirty) && Stopped())
      ensures !old(dirty) || old(Stopped()) ==>
        CalendarTimeNs(now) == old(CalendarTimeNs(now)) && committedNs == old(committedNs) && ranNs == old(ranNs)
    {
      hide AlarmSound, Conserved, FaceValid, FaceSeconds, FaceNow, Bit;
      Commit(now);
      Snapshot(now);
    }

    /** CONTROL holds STOP and the alarm enable. A stopped clock keeps a written calendar until it resumes. */
    method WriteControl(value: Byte, now: int)
      requires Valid() && clock == now
      modifies registers, `baseTimeNs, `baseClockNs, `week, `dirty, `secondsWritten, `alarmTimer, `irq
      modifies `committedNs, `ranNs, `committedWeek
      ensures Valid() && registers[CONTROL] == value
      ensures forall i :: 0 <= i < 256 && i != FLAG && i != CONTROL && !(SECONDS <= i <= YEAR) ==>
        registers[i] == old(registers[i])
      ensures !old(dirty) ==>
        CalendarTimeNs(now) == old(CalendarTimeNs(now)) && committedNs == old(committedNs) && ranNs == old(ranNs)
      ensures old(dirty) && old(Stopped()) && Bit(value, STOP) ==>
        CalendarTimeNs(now) == old(CalendarTimeNs(now)) && dirty
      ensures dirty ==> old(Stopped()) && Stopped()
    {
      hide AlarmSound, Conserved, FaceValid, FaceSeconds, FaceNow, Bit;
      TakeOver(now);
      ToggleStop(value, now);
      Commit(now);
      UpdateAlarm(now);
    }

    /** Calendar registers wait for the end of the transfer; alarm settings take effect at once. */
    method WriteRegister(address: Byte, value: Byte, now: int)
      requires Valid() && clock == now && SECONDS <= address <= 0x23 && address != FLAG && address != CONTROL
      modifies registers, `dirty, `secondsWritten, `alarmTimer, `irq
      ensures Valid() && registers[address] == value
      ensures dirty == (old(dirty) || address <= YEAR)
      ensures secondsWritten == (old(secondsWritten) || address == SECONDS)
      ensures forall i :: 0 <= i < 256 && i != address as int ==> registers[i] == old(registers[i])
    {
      registers[address] := value;
      dirty := dirty || address <= YEAR;
      secondsWritten := secondsWritten || address == SECONDS;
      if MINUTE_ALARM <= address <= DAY_ALARM || address == EXTENSION { UpdateAlarm(now); }
    }

    /** One byte from the bus: the register address after a start, then data for consecutive registers. */
    method DeviceSend(value: Byte, now: int)
      requires Valid() && now >= clock
      modifies this, registers
      ensures Valid() && clock == now && !registerPhase
      ensures old(registerPhase) ==> registerAddress == value && forall i :: 0 <= i < 256 ==>
        registers[i] == old(registers[i])
      ensures !old(registerPhase) ==> registerAddress == (old(registerAddress) + 1) % 256
      ensures !old(registerPhase) && SECONDS <= old(registerAddress) <= 0x23 ==>
                registers[old(registerAddress)] ==
                  if old(registerAddress) == FLAG then And(old(registers[FLAG]), value) else value
      ensures !old(registerPhase) && !(SECONDS <= old(registerAddress) <= 0x23) ==>
                forall i :: 0 <= i < 256 ==> registers[i] == old(registers[i])
    {
      hide AlarmSound, Conserved, Bit, And;
      Advance(now);
      if registerPhase {
        registerAddress := value;
        registerPhase := false;
        return;
      }

      var address := registerAddress;
      registerAddress := (registerAddress + 1) % 256;
      if address == FLAG {
        WriteFlag(value, now);
      } else if address == CONTROL {
        WriteControl(value, now);
      } else if SECONDS <= address <= 0x23 {
        WriteRegister(address, value, now);
      }
    }
  }
}
