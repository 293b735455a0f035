/** The ESP32-S3 I2C controller: ring-buffer FIFOs, the command list and the bus, updated in place. */
module Esp32s3I2cDevice {
  import opened Bits
  import opened I2cEngine

  /** `count` bytes of a ring buffer, oldest first. */
  function Ring(buffer: seq<Byte>, head: nat, count: nat): (s: seq<Byte>)
    requires |buffer| == FIFO_CAPACITY && head < FIFO_CAPACITY && count <= FIFO_CAPACITY
    ensures |s| == count
  {
    seq(count, i requires 0 <= i < count => buffer[(head + i) % FIFO_CAPACITY])
  }

  lemma {:induction false} RingPop(buffer: seq<Byte>, head: nat, count: nat)
    requires |buffer| == FIFO_CAPACITY && head < FIFO_CAPACITY && 0 < count <= FIFO_CAPACITY
    ensures Ring(buffer, head, count) == [buffer[head]] + Ring(buffer, (head + 1) % FIFO_CAPACITY, count - 1)
  {
  }

  lemma {:induction false} RingPush(buffer: seq<Byte>, head: nat, count: nat, byte: Byte)
    requires |buffer| == FIFO_CAPACITY && head < FIFO_CAPACITY && count < FIFO_CAPACITY
    ensures Ring(buffer[(head + count) % FIFO_CAPACITY := byte], head, count + 1) == Ring(buffer, head, count) + [byte]
  {
    var pushed := Ring(buffer[(head + count) % FIFO_CAPACITY := byte], head, count + 1);
    forall i | 0 <= i < count
      ensures pushed[i] == Ring(buffer, head, count)[i]
    {
      SlotsDiffer(head, i, count);
    }
  }

  lemma {:induction false} SlotsDiffer(head: nat, i: nat, j: nat)
    requires head < FIFO_CAPACITY && i < j < FIFO_CAPACITY
    ensures (head + i) % FIFO_CAPACITY != (head + j) % FIFO_CAPACITY
  {
  }

  /** Bus, interrupts and running flag after a command whose bytes, if any, are through. */
  function Concluded(bus: Bus, raised: Raised, command: nat): (Bus, Raised, bool) {
    var op := Opcode(command);
    if op == OP_RESTART then (bus.(busy := true, addressPhase := true, addressed := false), raised, true)
    else if op == OP_WRITE then (bus, raised, true)
    else if op == OP_READ then
      (if Length(command) > 0 && bus.addressed && AckValue(command) then Did(bus, Nack) else bus, raised, true)
    else if op == OP_STOP then (EndBus(bus), raised.(complete := true), false)
    else if op == OP_END then (bus, raised.(endDetect := true), false)
    else (EndBus(bus), raised.(timeout := true), false)
  }

  /** The engine's step at the end of a command: what the command does, and on to the next one if it was known. */
  lemma {:induction false} FinishStep(slave: Slave, commands: seq<nat>, m: Machine, room: bool)
    requires WellFormed(commands, m) && m.core.running && m.core.index < COMMAND_COUNT
    requires var command := commands[m.core.index];
      Opcode(command) == OP_WRITE || Opcode(command) == OP_READ ==> m.core.byteIndex >= Length(command)
    ensures var c, command := m.core, commands[m.core.index];
      var (bus, raised, running) := Concluded(c.bus, c.raised, command);
      var done := c.(bus := bus, raised := raised, running := running);
      Step(slave, commands, m, room) ==
        Some(m.(core := if Opcode(command) in {OP_RESTART, OP_WRITE, OP_READ, OP_STOP, OP_END} then Advance(done)
                        else done))
  {
    hide EndBus;
  }

  /** The engine's step for one byte of a WRITE command. */
  lemma {:induction false} PutStep(slave: Slave, commands: seq<nat>, m: Machine, room: bool)
    requires WellFormed(commands, m) && m.core.running && m.core.index < COMMAND_COUNT && m.tx != []
    requires Opcode(commands[m.core.index]) == OP_WRITE && m.core.byteIndex < Length(commands[m.core.index])
    ensures var c, command, bus := m.core, commands[m.core.index], PutByte(slave, m.core.bus, m.tx[0]);
      var put := c.(bus := bus, byteIndex := c.byteIndex + 1, raised := c.raised.(byteDone := true));
      var refused := AckCheck(command) && bus.lastNack != AckExpected(command);
      Step(slave, commands, m, room) ==
        Some(Machine(if refused then Halt(put, put.raised.(nack := true)) else put, m.tx[1..], m.rx))
  {
    hide PutByte, Halt, Length, AckCheck, AckExpected;
  }

  class Esp32s3I2c {
    const slave: Slave
    const commands: array<nat>
    const done: array<bool>
    const tx: array<Byte>
    var txHead: nat
    var txCount: nat
    const rx: array<Byte>
    var rxHead: nat
    var rxCount: nat
    var commandIndex: nat
    var byteIndex: nat
    var running: bool
    var raised: Raised
    var txOverflow: bool
    var rxUnderflow: bool
    var bus: Bus

    ghost predicate Valid()
      reads this, commands, done, tx, rx
    {
      && commands.Length == COMMAND_COUNT
      && done.Length == COMMAND_COUNT
      && commandIndex <= COMMAND_COUNT
      && tx.Length == FIFO_CAPACITY
      && rx.Length == FIFO_CAPACITY
      && tx != rx
      && txHead < FIFO_CAPACITY
      && txCount <= FIFO_CAPACITY
      && rxHead < FIFO_CAPACITY
      && rxCount <= FIFO_CAPACITY
    }

    ghost function View(): (m: Machine)
      requires Valid()
      reads this, commands, done, tx, rx
      ensures WellFormed(commands[..], m)
    {
      Machine(Core(commandIndex, byteIndex, running, done[..], raised, bus),
              Ring(tx[..], txHead, txCount), Ring(rx[..], rxHead, rxCount))
    }

    constructor (slave: Slave)
      ensures Valid()
      ensures fresh(commands)
      ensures fresh(done)
      ensures fresh(tx)
      ensures fresh(rx)
      ensures this.slave == slave
      ensures !running && View().tx == [] && View().rx == []
    {
      this.slave := slave;
      commands := new nat[COMMAND_COUNT](_ => 0);
      done := new bool[COMMAND_COUNT](_ => false);
      tx := new Byte[FIFO_CAPACITY](_ => 0);
      rx := new Byte[FIFO_CAPACITY](_ => 0);
      txHead, txCount, rxHead, rxCount := 0, 0, 0, 0;
      commandIndex, byteIndex, running := 0, 0, false;
      raised := Raised(false, false, false, false, false);
      txOverflow, rxUnderflow := false, false;
      bus := Bus([], 0, false, false, false, false, false);
    }

    /** Takes the oldest TX byte. */
    method PopTx() returns (byte: Byte)
      requires Valid() && txCount > 0
      modifies `txHead, `txCount
      ensures Valid()
      ensures old(View().tx) == [byte] + View().tx
      ensures View() == old(View()).(tx := View().tx)
    {
      RingPop(tx[..], txHead, txCount);
      byte := tx[txHead];
      txHead := (txHead + 1) % FIFO_CAPACITY;
      txCount := txCount - 1;
    }

    method PushRx(byte: Byte)
      requires Valid() && rxCount < FIFO_CAPACITY
      modifies rx, `rxCount
      ensures Valid() && View() == old(View()).(rx := old(View().rx) + [byte])
    {
      RingPush(rx[..], rxHead, rxCount, byte);
      ghost var before := rx[..];
      rx[(rxHead + rxCount) % FIFO_CAPACITY] := byte;
      assert rx[..] == before[(rxHead + rxCount) % FIFO_CAPACITY := byte];
      rxCount := rxCount + 1;
    }

    method EndTransferOnBus()
      modifies `bus
      ensures bus == EndBus(old(bus))
    {
      if bus.busy { bus := Did(bus, EndTransfer); }
      bus := bus.(busy := false, addressed := false, addressPhase := false);
    }

    method SendByte(byte: Byte)
      modifies `bus
      ensures bus == PutByte(slave, old(bus), byte)
    {
      var ack := false;
      if bus.addressPhase {
        bus := AddressDevice(slave, bus, byte);
        ack := bus.addressed;
      } else if bus.addressed && !bus.read {
        bus := Did(bus, Send(byte));
        ack := slave.acks(bus.ops);
      }
      bus := bus.(lastNack := !ack);
    }

    /** What the engine's next step would make of this state. */
    ghost function Next(): Option<Machine>
      requires Valid()
      reads this, commands, done, tx, rx
    {
      Step(slave, commands[..], View(), Room(Some(FIFO_CAPACITY), View().rx))
    }

    /** Where the engine will come to rest from this state. */
    ghost function Rest(): Machine
      requires Valid()
      reads this, commands, done, tx, rx
    {
      Run(slave, commands[..], View(), Some(FIFO_CAPACITY))
    }

    method WriteByte(command: nat)
      requires Valid() && running && commandIndex < COMMAND_COUNT
      requires command == commands[commandIndex] && Opcode(command) == OP_WRITE && byteIndex < Length(command)
      requires txCount > 0
      modifies `txHead, `txCount, `byteIndex, `raised, `bus, `running
      ensures Valid() && old(Next()) == Some(View())
    {
      hide Step, PutByte, EndBus, Opcode, Length, AckCheck, AckExpected;
      ghost var before := View();
      PutStep(slave, commands[..], before, Room(Some(FIFO_CAPACITY), before.rx));
      var byte := PopTx();
      SendByte(byte);
      byteIndex := byteIndex + 1;
      raised := raised.(byteDone := true);
      if AckCheck(command) && bus.lastNack != AckExpected(command) {
        raised := raised.(nack := true);
        running := false;
        EndTransferOnBus();
      }
      assert before.tx[1..] == View().tx;
    }

    method ReadByte(command: nat)
      requires Valid() && running && commandIndex < COMMAND_COUNT
      requires command == commands[commandIndex] && Opcode(command) == OP_READ && byteIndex < Length(command)
      requires rxCount < FIFO_CAPACITY
      modifies rx, `rxCount, `byteIndex, `raised, `bus
      ensures Valid() && old(Next()) == Some(View())
    {
      var byte: Byte := 0xFF;
      if bus.addressed && bus.read {
        bus := Did(bus, Receive);
        byte := slave.data(bus.ops);
      }
      PushRx(byte);
      byteIndex := byteIndex + 1;
      raised := raised.(byteDone := true);
    }

    /** What a command does once its bytes are through; false if it is no command the engine knows. */
    method Conclude(command: nat) returns (known: bool)
      requires running
      modifies `raised, `bus, `running
      ensures known <==> Opcode(command) in {OP_RESTART, OP_WRITE, OP_READ, OP_STOP, OP_END}
      ensures (bus, raised, running) == Concluded(old(bus), old(raised), command)
    {
      var opcode := Opcode(command);
      if opcode == OP_RESTART {
        bus := bus.(busy := true, addressPhase := true, addressed := false);
      } else if opcode == OP_READ {
        if Length(command) > 0 && bus.addressed && AckValue(command) { bus := Did(bus, Nack); }
      } else if opcode == OP_STOP {
        EndTransferOnBus();
        running := false;
        raised := raised.(complete := true);
      } else if opcode == OP_END {
        running := false;
        raised := raised.(endDetect := true);
      } else if opcode != OP_WRITE {
        raised := raised.(timeout := true);
        running := false;
        EndTransferOnBus();
        return false;
      }
      return true;
    }

    /** The end of a command whose bytes, if any, are through. */
    method FinishCommand(command: nat)
      requires Valid() && running && commandIndex < COMMAND_COUNT && command == commands[commandIndex]
      requires Opcode(command) == OP_WRITE || Opcode(command) == OP_READ ==> byteIndex >= Length(command)
      modifies done, `commandIndex, `byteIndex, `raised, `bus, `running
      ensures Valid() && old(Next()) == Some(View())
    {
      hide Step, Concluded, Opcode, EndBus;
      ghost var was, before := View(), done[..];
      FinishStep(slave, commands[..], was, Room(Some(FIFO_CAPACITY), was.rx));
      var known := Conclude(command);
      if !known { return; }
      done[commandIndex] := true;
      assert done[..] == before[commandIndex := true];
      commandIndex := commandIndex + 1;
      byteIndex := 0;
    }

    /** The WRITE loop: ends with the command exhausted, the engine halted, or no TX byte left. */
    method WriteBytes(command: nat) returns (paused: bool)
      requires Valid() && running && commandIndex < COMMAND_COUNT
      requires command == commands[commandIndex] && Opcode(command) == OP_WRITE
      modifies `txHead, `txCount, `byteIndex, `raised, `bus, `running
      ensures Valid() && Rest() == old(Rest())
      ensures paused ==> Next() == None
      ensures !paused ==> running && byteIndex >= Length(command)
      ensures Fuel(commands[..], View()) <= Fuel(commands[..], old(View()))
    {
      hide Run, Fuel, Step;
      while running && byteIndex < Length(command)
        invariant Valid() && Rest() == old(Rest())
        invariant Fuel(commands[..], View()) <= Fuel(commands[..], old(View()))
        decreases Fuel(commands[..], View())
      {
        if txCount == 0 {
          WriteWaits(slave, commands[..], View(), Room(Some(FIFO_CAPACITY), View().rx));
          return true;
        }
        ghost var before := View();
        WriteByte(command);
        RunTakesStep(slave, commands[..], before, Some(FIFO_CAPACITY), View());
      }
      StoppedRests(slave, commands[..], View(), Room(Some(FIFO_CAPACITY), View().rx));
      return !running;
    }

    /** The READ loop: ends with the command's bytes fetched or no RX room left. */
    method ReadBytes(command: nat) returns (paused: bool)
      requires Valid() && running && commandIndex < COMMAND_COUNT
      requires command == commands[commandIndex] && Opcode(command) == OP_READ
      modifies rx, `rxCount, `byteIndex, `raised, `bus
      ensures Valid() && Rest() == old(Rest())
      ensures paused ==> Next() == None
      ensures !paused ==> byteIndex >= Length(command)
      ensures Fuel(commands[..], View()) <= Fuel(commands[..], old(View()))
    {
      hide Run, Fuel, Step;
      while byteIndex < Length(command)
        invariant Valid() && Rest() == old(Rest())
        invariant Fuel(commands[..], View()) <= Fuel(commands[..], old(View()))
        decreases Fuel(commands[..], View())
      {
        if rxCount == FIFO_CAPACITY {
          ReadWaits(slave, commands[..], View());
          return true;
        }
        ghost var before := View();
        ReadByte(command);
        RunTakesStep(slave, commands[..], before, Some(FIFO_CAPACITY), View());
      }
      return false;
    }

    /** Executes commands until the engine stops or must wait for software. */
    method RunCommands()
      requires Valid()
      modifies done, rx, `txHead, `txCount, `rxCount, `commandIndex, `byteIndex, `raised, `bus, `running
      ensures Valid() && View() == old(Rest())
    {
      hide Run, Fuel, Step;
      while running && commandIndex < COMMAND_COUNT
        invariant Valid() && Rest() == old(Rest())
        decreases Fuel(commands[..], View())
      {
        var command := commands[commandIndex];
        var paused := false;
        if Opcode(command) == OP_WRITE {
          paused := WriteBytes(command);
        } else if Opcode(command) == OP_READ {
          paused := ReadBytes(command);
        }
        if paused {
          RunRests(slave, commands[..], View(), Some(FIFO_CAPACITY));
          return;
        }
        ghost var before := View();
        FinishCommand(command);
        RunTakesStep(slave, commands[..], before, Some(FIFO_CAPACITY), View());
      }

      if running {
        ghost var before := View();
        running := false;
        raised := raised.(timeout := true);
        EndTransferOnBus();
        ListEnds(slave, commands[..], before, Room(Some(FIFO_CAPACITY), before.rx));
        RunTakesStep(slave, commands[..], before, Some(FIFO_CAPACITY), View());
      }
      StoppedRests(slave, commands[..], View(), Room(Some(FIFO_CAPACITY), View().rx));
      RunRests(slave, commands[..], View(), Some(FIFO_CAPACITY));
    }

    /** A write to the data register. */
    method WriteData(byte: Byte)
      requires Valid()
      modifies this, done, tx, rx
      ensures Valid() && rxUnderflow == old(rxUnderflow)
      ensures txOverflow == (old(txOverflow) || |old(View().tx)| == FIFO_CAPACITY)
      ensures forall read ::
        Session(View(), read) == Access1(slave, commands[..], Session(old(View()), read), Push(byte))
    {
      if txCount == FIFO_CAPACITY {
        txOverflow := true;
        return;
      }
      RingPush(tx[..], txHead, txCount, byte);
      ghost var before := tx[..];
      tx[(txHead + txCount) % FIFO_CAPACITY] := byte;
      assert tx[..] == before[(txHead + txCount) % FIFO_CAPACITY := byte];
      txCount := txCount + 1;
      RunCommands();
    }

    /** A read of the data register. */
    method ReadData() returns (byte: Byte)
      requires Valid()
      modifies this, done, rx
      ensures Valid() && txOverflow == old(txOverflow)
      ensures rxUnderflow == (old(rxUnderflow) || old(View().rx) == [])
      ensures byte == if old(View().rx) == [] then 0 else old(View().rx)[0]
      ensures forall read :: Session(View(), if old(View().rx) == [] then read else read + [byte]) ==
                             Access1(slave, commands[..], Session(old(View()), read), Pop)
    {
      if rxCount == 0 {
        rxUnderflow := true;
        return 0;
      }
      RingPop(rx[..], rxHead, rxCount);
      byte := rx[rxHead];
      rxHead := (rxHead + 1) % FIFO_CAPACITY;
      rxCount := rxCount - 1;
      assert View().rx == old(View().rx)[1..];
      RunCommands();
    }

    /** START in FIFO master mode: a fresh pass over the command list, on the bus as it stands. */
    method Start()
      requires Valid()
      modifies this, done, rx
      ensures Valid()
      ensures View() == Run(slave, commands[..], Begin(old(View())), Some(FIFO_CAPACITY))
    {
      commandIndex, byteIndex := 0, 0;
      for i := 0 to COMMAND_COUNT
        modifies done
        invariant forall j :: 0 <= j < i ==> !done[j]
      {
        done[i] := false;
      }
      running := true;
      assert View() == Begin(old(View())) by {
        assert done[..] == seq(COMMAND_COUNT, _ => false);
      }
      RunCommands();
    }
  }
}
