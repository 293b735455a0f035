/**
  The ESP32-S3 I2C command interpreter as a process between two byte streams.
  It stops for want of TX bytes or RX room and goes on later; the schedule of FIFO accesses
  that starves and feeds it is shown not to matter.
 */
module I2cEngine {
  import opened Bits

  const COMMAND_COUNT: nat := 8
  const FIFO_CAPACITY: nat := 32

  const OP_WRITE: nat := 1
  const OP_STOP: nat := 2
  const OP_READ: nat := 3
  const OP_END: nat := 4
  const OP_RESTART: nat := 6

  function Opcode(command: nat): nat { command / 2048 % 8 }
  function Length(command: nat): nat { command % 256 }
  predicate AckCheck(command: nat) { command / 256 % 2 == 1 }
  predicate AckExpected(command: nat) { command / 512 % 2 == 1 }
  predicate AckValue(command: nat) { command / 1024 % 2 == 1 }

  datatype BusOp = StartTransfer(address: nat, read: bool) | Send(byte: Byte) | Receive | Nack | EndTransfer

  /** A slave: what it answers may depend on everything the bus has done so far. */
  datatype Slave = Slave(acks: seq<BusOp> -> bool, data: seq<BusOp> -> Byte)

  datatype Bus = Bus(ops: seq<BusOp>, address: nat, busy: bool, addressed: bool, addressPhase: bool, read: bool,
    lastNack: bool)

  /** The interrupt bits the engine raises. */
  datatype Raised = Raised(endDetect: bool, byteDone: bool, complete: bool, timeout: bool, nack: bool)

  datatype Core = Core(index: nat, byteIndex: nat, running: bool, done: seq<bool>, raised: Raised, bus: Bus)

  datatype Machine = Machine(core: Core, tx: seq<Byte>, rx: seq<Byte>)

  function Did(b: Bus, op: BusOp): Bus {
    b.(ops := b.ops + [op])
  }

  function EndBus(b: Bus): Bus {
    var ended := if b.busy then Did(b, EndTransfer) else b;
    ended.(busy := false, addressed := false, addressPhase := false)
  }

  /** The address byte after a START. */
  function AddressDevice(slave: Slave, b: Bus, byte: Byte): Bus {
    var released := if byte / 2 != b.address then Did(b, EndTransfer) else b;
    var started := Did(released, StartTransfer(byte / 2, byte % 2 == 1));
    var ack := slave.acks(started.ops);
    var selected := started.(address := byte / 2, read := byte % 2 == 1, addressPhase := false, addressed := ack);
    if ack then selected else Did(selected, EndTransfer)
  }

  /** One byte of a WRITE command, and whether it was acknowledged. */
  function PutByte(slave: Slave, b: Bus, byte: Byte): Bus {
    if b.addressPhase then
      var selected := AddressDevice(slave, b, byte);
      selected.(lastNack := !selected.addressed)
    else if b.addressed && !b.read then
      var sent := Did(b, Send(byte));
      sent.(lastNack := !slave.acks(sent.ops))
    else
      b.(lastNack := true)
  }

  /** One byte of a READ command. */
  function GetByte(slave: Slave, b: Bus): (Bus, Byte) {
    if b.addressed && b.read then
      var asked := Did(b, Receive);
      (asked, slave.data(asked.ops))
    else (b, 255)
  }

  function Halt(c: Core, raised: Raised): Core {
    c.(running := false, raised := raised, bus := EndBus(c.bus))
  }

  function Advance(c: Core): Core
    requires c.index < |c.done|
  {
    c.(done := c.done[c.index := true], index := c.index + 1, byteIndex := 0)
  }

  predicate WellFormed(commands: seq<nat>, m: Machine) {
    && |commands| == COMMAND_COUNT
    && |m.core.done| == COMMAND_COUNT
    && m.core.index <= COMMAND_COUNT
  }

  /** The smallest step the engine can take; None when it has stopped or must wait. */
  function Step(slave: Slave, commands: seq<nat>, m: Machine, room: bool): (r: Option<Machine>)
    requires WellFormed(commands, m)
    ensures r.Some? ==> WellFormed(commands, r.value)
  {
    var c := m.core;
    if !c.running then None
    else if c.index == COMMAND_COUNT then Some(m.(core := Halt(c, c.raised.(timeout := true))))
    else
      var command := commands[c.index];
      var op := Opcode(command);
      if op == OP_RESTART then
        Some(m.(core := Advance(c.(bus := c.bus.(busy := true, addressPhase := true, addressed := false)))))
      else if op == OP_WRITE then
        if c.byteIndex >= Length(command) then Some(m.(core := Advance(c)))
        else if m.tx == [] then None
        else
          var bus := PutByte(slave, c.bus, m.tx[0]);
          var put := c.(bus := bus, byteIndex := c.byteIndex + 1, raised := c.raised.(byteDone := true));
          Some(Machine(
            if AckCheck(command) && bus.lastNack != AckExpected(command)
            then Halt(put, put.raised.(nack := true)) else put,
            m.tx[1..], m.rx))
      else if op == OP_READ then
        if c.byteIndex >= Length(command) then
          var bus := if Length(command) > 0 && c.bus.addressed && AckValue(command) then Did(c.bus, Nack) else c.bus;
          Some(m.(core := Advance(c.(bus := bus))))
        else if !room then None
        else
          var (bus, byte) := GetByte(slave, c.bus);
          Some(Machine(c.(bus := bus, byteIndex := c.byteIndex + 1, raised := c.raised.(byteDone := true)),
                       m.tx, m.rx + [byte]))
      else if op == OP_STOP then Some(m.(core := Advance(Halt(c, c.raised.(complete := true)))))
      else if op == OP_END then Some(m.(core := Advance(c.(running := false, raised := c.raised.(endDetect := true)))))
      else Some(m.(core := Halt(c, c.raised.(timeout := true))))
  }

  /** Steps left at most: none once stopped. */
  function Fuel(commands: seq<nat>, m: Machine): nat
    requires WellFormed(commands, m)
  {
    var c := m.core;
    if !c.running then 0
    else if c.index == COMMAND_COUNT then 1
    else
      var length := Length(commands[c.index]);
      (COMMAND_COUNT - c.index) * 300 + if c.byteIndex < length then length - c.byteIndex else 0
  }

  lemma {:induction false} StepBurnsFuel(slave: Slave, commands: seq<nat>, m: Machine, room: bool)
    requires WellFormed(commands, m) && Step(slave, commands, m, room).Some?
    ensures Fuel(commands, Step(slave, commands, m, room).value) < Fuel(commands, m)
  {
  }

  /** Room in an RX FIFO of the given capacity, None standing for one without end. */
  predicate Room(capacity: Option<nat>, rx: seq<Byte>) {
    capacity.None? || |rx| < capacity.value
  }

  /** Runs until the engine stops or must wait. */
  function Run(slave: Slave, commands: seq<nat>, m: Machine, capacity: Option<nat>): (r: Machine)
    requires WellFormed(commands, m)
    ensures WellFormed(commands, r)
    ensures Step(slave, commands, r, Room(capacity, r.rx)) == None
    decreases Fuel(commands, m)
  {
    var next := Step(slave, commands, m, Room(capacity, m.rx));
    if next.None? then m
    else
      StepBurnsFuel(slave, commands, m, Room(capacity, m.rx));
      Run(slave, commands, next.value, capacity)
  }

  /** Taking a step does not change where a run ends. */
  lemma {:induction false} RunTakesStep(slave: Slave, commands: seq<nat>, m: Machine, capacity: Option<nat>,
        next: Machine)
    requires WellFormed(commands, m) && Step(slave, commands, m, Room(capacity, m.rx)) == Some(next)
    ensures Run(slave, commands, m, capacity) == Run(slave, commands, next, capacity)
    ensures Fuel(commands, next) < Fuel(commands, m)
  {
    StepBurnsFuel(slave, commands, m, Room(capacity, m.rx));
  }

  lemma {:induction false} RunRests(slave: Slave, commands: seq<nat>, m: Machine, capacity: Option<nat>)
    requires WellFormed(commands, m) && Step(slave, commands, m, Room(capacity, m.rx)) == None
    ensures Run(slave, commands, m, capacity) == m
  {
  }

  lemma {:induction false} StoppedRests(slave: Slave, commands: seq<nat>, m: Machine, room: bool)
    requires WellFormed(commands, m)
    ensures !m.core.running ==> Step(slave, commands, m, room) == None
  {
  }

  /** A list without STOP or END times out. */
  lemma {:induction false} ListEnds(slave: Slave, commands: seq<nat>, m: Machine, room: bool)
    requires WellFormed(commands, m) && m.core.running && m.core.index == COMMAND_COUNT
    ensures Step(slave, commands, m, room) == Some(m.(core := Halt(m.core, m.core.raised.(timeout := true))))
  {
  }

  lemma {:induction false} WriteWaits(slave: Slave, commands: seq<nat>, m: Machine, room: bool)
    requires WellFormed(commands, m) && m.core.index < COMMAND_COUNT && Opcode(commands[m.core.index]) == OP_WRITE
    requires m.core.byteIndex < Length(commands[m.core.index]) && m.tx == []
    ensures Step(slave, commands, m, room) == None
  {
  }

  lemma {:induction false} ReadWaits(slave: Slave, commands: seq<nat>, m: Machine)
    requires WellFormed(commands, m) && m.core.index < COMMAND_COUNT && Opcode(commands[m.core.index]) == OP_READ
    requires m.core.byteIndex < Length(commands[m.core.index])
    ensures Step(slave, commands, m, false) == None
  {
  }

  /** A fresh pass over the list, on the bus and with the FIFOs as they stand. */
  function Begin(m: Machine): Machine {
    m.(core := m.core.(index := 0, byteIndex := 0, running := true, done := seq(COMMAND_COUNT, _ => false)))
  }

  // ----- Schedules of FIFO accesses -----

  /** Software's accesses to the data register. */
  datatype Access = Push(byte: Byte) | Pop

  /** The engine with real FIFOs, and the bytes software has read so far. */
  datatype Session = Session(m: Machine, read: seq<Byte>)

  function Access1(slave: Slave, commands: seq<nat>, s: Session, a: Access): (r: Session)
    requires WellFormed(commands, s.m)
    ensures WellFormed(commands, r.m)
  {
    match a
    case Push(byte) =>
      if |s.m.tx| == FIFO_CAPACITY then s
      else s.(m := Run(slave, commands, s.m.(tx := s.m.tx + [byte]), Some(FIFO_CAPACITY)))
    case Pop =>
      if s.m.rx == [] then s
      else Session(Run(slave, commands, s.m.(rx := s.m.rx[1..]), Some(FIFO_CAPACITY)), s.read + [s.m.rx[0]])
  }

  function Schedule(slave: Slave, commands: seq<nat>, s: Session, accesses: seq<Access>): (r: Session)
    requires WellFormed(commands, s.m)
    ensures WellFormed(commands, r.m)
    decreases |accesses|
  {
    if accesses == [] then s
    else Schedule(slave, commands, Access1(slave, commands, s, accesses[0]), accesses[1..])
  }

  /** The bytes of the schedule that the TX FIFO took; an overflowing write is lost. */
  function Taken(slave: Slave, commands: seq<nat>, s: Session, accesses: seq<Access>): seq<Byte>
    requires WellFormed(commands, s.m)
    decreases |accesses|
  {
    if accesses == [] then []
    else
      var rest := Taken(slave, commands, Access1(slave, commands, s, accesses[0]), accesses[1..]);
      if accesses[0].Push? && |s.m.tx| != FIFO_CAPACITY then [accesses[0].byte] + rest else rest
  }

  /** One uninterrupted run: all input present from the start, output without end. */
  function OneShot(slave: Slave, commands: seq<nat>, s: Session, input: seq<Byte>): Machine
    requires WellFormed(commands, s.m)
  {
    Run(slave, commands, Machine(s.m.core, s.m.tx + input, s.read + s.m.rx), None)
  }

  /** A step stays possible, and does the same, when more input waits behind and earlier output is put in front. */
  lemma {:induction false} StepExtends(slave: Slave, commands: seq<nat>, m: Machine, room: bool, more: seq<Byte>,
        read: seq<Byte>)
    requires WellFormed(commands, m) && Step(slave, commands, m, room).Some?
    ensures var next := Step(slave, commands, m, room).value;
      Step(slave, commands, Machine(m.core, m.tx + more, read + m.rx), true) ==
        Some(Machine(next.core, next.tx + more, read + next.rx))
  {
    var next := Step(slave, commands, m, room).value;
    if next.tx != m.tx {
      assert (m.tx + more)[1..] == m.tx[1..] + more;
    }
    if next.rx != m.rx {
      assert read + next.rx == (read + m.rx) + [next.rx[|m.rx|]];
    }
  }

  /** What a run with real FIFOs does first, the uninterrupted run does too. */
  lemma {:induction false} RunAbsorbed(slave: Slave, commands: seq<nat>, m: Machine, more: seq<Byte>, read: seq<Byte>)
    requires WellFormed(commands, m)
    ensures var r := Run(slave, commands, m, Some(FIFO_CAPACITY));
      Run(slave, commands, Machine(m.core, m.tx + more, read + m.rx), None) ==
      Run(slave, commands, Machine(r.core, r.tx + more, read + r.rx), None)
    decreases Fuel(commands, m)
  {
    var room := Room(Some(FIFO_CAPACITY), m.rx);
    var next := Step(slave, commands, m, room);
    if next.Some? {
      StepBurnsFuel(slave, commands, m, room);
      StepExtends(slave, commands, m, room, more, read);
      RunAbsorbed(slave, commands, next.value, more, read);
    }
  }

  /** Any schedule leaves the uninterrupted run over the same bytes where it was. */
  lemma {:induction false} ScheduleKeepsOneShot(slave: Slave, commands: seq<nat>, s: Session, accesses: seq<Access>,
        more: seq<Byte>)
    requires WellFormed(commands, s.m)
    ensures OneShot(slave, commands, Schedule(slave, commands, s, accesses), more) ==
            OneShot(slave, commands, s, Taken(slave, commands, s, accesses) + more)
    decreases |accesses|
  {
    hide Run, Step;
    if accesses == [] {
      assert Taken(slave, commands, s, accesses) + more == more;
    } else {
      var a := accesses[0];
      var next := Access1(slave, commands, s, a);
      var rest := Taken(slave, commands, next, accesses[1..]) + more;
      ScheduleKeepsOneShot(slave, commands, next, accesses[1..], more);
      match a {
        case Push(byte) =>
          if |s.m.tx| != FIFO_CAPACITY {
            assert Taken(slave, commands, s, accesses) + more == [byte] + rest;
            RunAbsorbed(slave, commands, s.m.(tx := s.m.tx + [byte]), rest, s.read);
            assert s.m.tx + [byte] + rest == s.m.tx + ([byte] + rest);
          }
        case Pop =>
          if s.m.rx != [] {
            var read := s.read + [s.m.rx[0]];
            RunAbsorbed(slave, commands, s.m.(rx := s.m.rx[1..]), rest, read);
            assert read + s.m.rx[1..] == s.read + s.m.rx;
          }
      }
    }
  }

  /**
    Schedule independence: once the engine has stopped, or waits for input with RX room to spare,
    bus operations, done bits, interrupt bits, final status, unread input and all bytes read
    are those of the uninterrupted run over the same bytes.
   */
  lemma {:induction false} ScheduleIndependence(slave: Slave, commands: seq<nat>, s: Session, accesses: seq<Access>)
    requires WellFormed(commands, s.m)
    requires Step(slave, commands, Schedule(slave, commands, s, accesses).m, true) == None
    ensures var end := Schedule(slave, commands, s, accesses);
      OneShot(slave, commands, s, Taken(slave, commands, s, accesses)) ==
        Machine(end.m.core, end.m.tx, end.read + end.m.rx)
  {
    var end := Schedule(slave, commands, s, accesses);
    var taken := Taken(slave, commands, s, accesses);
    ScheduleKeepsOneShot(slave, commands, s, accesses, []);
    assert taken + [] == taken && end.m.tx + [] == end.m.tx;
    WaitIgnoresOutput(slave, commands, end.m, end.read);
  }

  lemma {:induction false} WaitIgnoresOutput(slave: Slave, commands: seq<nat>, m: Machine, read: seq<Byte>)
    requires WellFormed(commands, m) && Step(slave, commands, m, true) == None
    ensures Run(slave, commands, Machine(m.core, m.tx, read + m.rx), None) == Machine(m.core, m.tx, read + m.rx)
  {
    assert Step(slave, commands, Machine(m.core, m.tx, read + m.rx), true) == None;
  }

  /** The engine waits only on a WRITE with an empty TX FIFO or a READ with a full RX FIFO. */
  lemma {:induction false} WaitsOnlyForFifos(slave: Slave, commands: seq<nat>, m: Machine)
    requires WellFormed(commands, m)
    ensures var r := Run(slave, commands, m, Some(FIFO_CAPACITY));
      r.core.running ==>
        && r.core.index < COMMAND_COUNT
        && r.core.byteIndex < Length(commands[r.core.index])
        && ((Opcode(commands[r.core.index]) == OP_WRITE && r.tx == []) ||
            (Opcode(commands[r.core.index]) == OP_READ && |r.rx| >= FIFO_CAPACITY))
  {
    var r := Run(slave, commands, m, Some(FIFO_CAPACITY));
    assert Step(slave, commands, r, Room(Some(FIFO_CAPACITY), r.rx)) == None;
  }

  /** Two schedules that feed the same bytes and let the engine stop agree on everything. */
  lemma {:induction false} SchedulesAgree(slave: Slave, commands: seq<nat>, s: Session, a: seq<Access>, b: seq<Access>)
    requires WellFormed(commands, s.m)
    requires Taken(slave, commands, s, a) == Taken(slave, commands, s, b)
    requires !Schedule(slave, commands, s, a).m.core.running && !Schedule(slave, commands, s, b).m.core.running
    ensures var x, y := Schedule(slave, commands, s, a), Schedule(slave, commands, s, b);
      x.m.core == y.m.core && x.m.tx == y.m.tx && x.read + x.m.rx == y.read + y.m.rx
  {
    ScheduleIndependence(slave, commands, s, a);
    ScheduleIndependence(slave, commands, s, b);
  }
}
