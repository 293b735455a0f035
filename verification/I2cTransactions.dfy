/** What command lists do on the bus: the register read every driver uses, refusals, and the direction of transfers. */
module I2cTransactions {
  import opened Bits
  import opened I2cEngine

  // ----- Steps of a list -----

  /** A running machine. */
  function At(index: nat, byteIndex: nat, done: seq<bool>, raised: Raised, bus: Bus,
              tx: seq<Byte>, rx: seq<Byte>): Machine {
    Machine(Core(index, byteIndex, true, done, raised, bus), tx, rx)
  }

  /** The bus after further operations. */
  function More(bus: Bus, ops: seq<BusOp>): Bus {
    bus.(ops := bus.ops + ops)
  }

  lemma {:induction false} MoreTwice(bus: Bus, first: seq<BusOp>, then': seq<BusOp>)
    ensures More(More(bus, first), then') == More(bus, first + then')
    ensures More(bus, []) == bus
  {
    assert bus.ops + first + then' == bus.ops + (first + then') && bus.ops + [] == bus.ops;
  }

  function ByteDone(raised: Raised): Raised {
    raised.(byteDone := true)
  }

  lemma {:induction false} RestartRuns(slave: Slave, commands: seq<nat>, capacity: Option<nat>, i: nat, j: nat,
                                       done: seq<bool>, raised: Raised, bus: Bus, tx: seq<Byte>, rx: seq<Byte>)
    requires WellFormed(commands, At(i, j, done, raised, bus, tx, rx)) && i < COMMAND_COUNT
    requires Opcode(commands[i]) == OP_RESTART
    ensures Run(slave, commands, At(i, j, done, raised, bus, tx, rx), capacity) ==
      Run(slave, commands, At(i + 1, 0, done[i := true], raised,
        Bus(bus.ops, bus.address, true, false, true, bus.read, bus.lastNack), tx, rx), capacity)
  {
    RunTakesStep(slave, commands, At(i, j, done, raised, bus, tx, rx), capacity,
      At(i + 1, 0, done[i := true], raised,
        Bus(bus.ops, bus.address, true, false, true, bus.read, bus.lastNack), tx, rx));
  }

  /** A WRITE or READ command that is through. */
  lemma {:induction false} WriteEnds(slave: Slave, commands: seq<nat>, capacity: Option<nat>, i: nat, j: nat,
                                     done: seq<bool>, raised: Raised, bus: Bus, tx: seq<Byte>, rx: seq<Byte>)
    requires WellFormed(commands, At(i, j, done, raised, bus, tx, rx)) && i < COMMAND_COUNT
    requires Opcode(commands[i]) == OP_WRITE && j >= Length(commands[i])
    ensures Run(slave, commands, At(i, j, done, raised, bus, tx, rx), capacity) ==
      Run(slave, commands, At(i + 1, 0, done[i := true], raised, bus, tx, rx), capacity)
  {
    RunTakesStep(slave, commands, At(i, j, done, raised, bus, tx, rx), capacity,
      At(i + 1, 0, done[i := true], raised, bus, tx, rx));
  }

  lemma {:induction false} ReadEnds(slave: Slave, commands: seq<nat>, capacity: Option<nat>, i: nat, j: nat,
                                    done: seq<bool>, raised: Raised, bus: Bus, tx: seq<Byte>, rx: seq<Byte>)
    requires WellFormed(commands, At(i, j, done, raised, bus, tx, rx)) && i < COMMAND_COUNT
    requires Opcode(commands[i]) == OP_READ && j >= Length(commands[i]) && bus.addressed
    ensures Run(slave, commands, At(i, j, done, raised, bus, tx, rx), capacity) ==
      Run(slave, commands, At(i + 1, 0, done[i := true], raised,
        More(bus, Final(commands[i])), tx, rx), capacity)
  {
    assert bus.ops + [] == bus.ops;
    RunTakesStep(slave, commands, At(i, j, done, raised, bus, tx, rx), capacity,
      At(i + 1, 0, done[i := true], raised, More(bus, Final(commands[i])), tx, rx));
  }

  /** The master's answer to the last byte, if the command asks for a refusal. */
  function Final(command: nat): seq<BusOp> {
    if Length(command) > 0 && AckValue(command) then [Nack] else []
  }

  lemma {:induction false} StopEnds(slave: Slave, commands: seq<nat>, capacity: Option<nat>, i: nat, j: nat,
                                    done: seq<bool>, raised: Raised, bus: Bus, tx: seq<Byte>, rx: seq<Byte>)
    requires WellFormed(commands, At(i, j, done, raised, bus, tx, rx)) && i < COMMAND_COUNT
    requires Opcode(commands[i]) == OP_STOP && bus.busy
    ensures Run(slave, commands, At(i, j, done, raised, bus, tx, rx), capacity) ==
      Machine(Core(i + 1, 0, false, done[i := true], raised.(complete := true),
        Bus(bus.ops + [EndTransfer], bus.address, false, false, false, bus.read, bus.lastNack)), tx, rx)
  {
    var end := Machine(Core(i + 1, 0, false, done[i := true], raised.(complete := true),
      Bus(bus.ops + [EndTransfer], bus.address, false, false, false, bus.read, bus.lastNack)), tx, rx);
    RunTakesStep(slave, commands, At(i, j, done, raised, bus, tx, rx), capacity, end);
    RunRests(slave, commands, end, capacity);
  }

  // ----- Bytes -----

  /** A command that does not check, or expects what an acknowledging slave answers. */
  predicate Tolerant(command: nat) {
    AckCheck(command) ==> !AckExpected(command)
  }

  /** The release of another device that was selected, and the START for the one addressed. */
  function Selection(bus: Bus, a: nat, read: bool): seq<BusOp> {
    (if a != bus.address then [EndTransfer] else []) + [StartTransfer(a, read)]
  }

  function AddressByte(a: nat, read: bool): Byte
    requires a < 128
  {
    2 * a + if read then 1 else 0
  }

  /** An acknowledged address byte selects the device in the direction of its lowest bit: 1 to read, 0 to write. */
  lemma {:induction false} AddressRuns(slave: Slave, commands: seq<nat>, capacity: Option<nat>, i: nat,
                                       done: seq<bool>, raised: Raised, bus: Bus, tx: seq<Byte>, rx: seq<Byte>,
                                       a: nat, read: bool)
    requires WellFormed(commands, At(i, 0, done, raised, bus, [0] + tx, rx)) && i < COMMAND_COUNT && a < 128
    requires Opcode(commands[i]) == OP_WRITE && 0 < Length(commands[i]) && Tolerant(commands[i]) && bus.addressPhase
    requires slave.acks(bus.ops + Selection(bus, a, read))
    ensures Run(slave, commands, At(i, 0, done, raised, bus, [AddressByte(a, read)] + tx, rx), capacity) ==
      Run(slave, commands, At(i, 1, done, ByteDone(raised),
        Bus(bus.ops + Selection(bus, a, read), a, bus.busy, true, false, read, false), tx, rx), capacity)
  {
    var byte := AddressByte(a, read);
    var m := At(i, 0, done, raised, bus, [byte] + tx, rx);
    Addressed(slave, bus, a, read);
    assert ([byte] + tx)[1..] == tx;
    var next := At(i, 1, done, ByteDone(raised),
      Bus(bus.ops + Selection(bus, a, read), a, bus.busy, true, false, read, false), tx, rx);
    hide PutByte;
    assert Step(slave, commands, m, Room(capacity, rx)) == Some(next);
    RunTakesStep(slave, commands, m, capacity, next);
  }

  lemma {:induction false} Addressed(slave: Slave, bus: Bus, a: nat, read: bool)
    requires a < 128 && bus.addressPhase && slave.acks(bus.ops + Selection(bus, a, read))
    ensures PutByte(slave, bus, AddressByte(a, read)) ==
      Bus(bus.ops + Selection(bus, a, read), a, bus.busy, true, false, read, false)
  {
    var byte := AddressByte(a, read);
    assert byte / 2 == a && (byte % 2 == 1) == read;
    assert bus.ops + ([EndTransfer] + [StartTransfer(a, read)]) == bus.ops + [EndTransfer] + [StartTransfer(a, read)];
    assert [] + [StartTransfer(a, read)] == [StartTransfer(a, read)];
  }

  function Sends(bytes: seq<Byte>): seq<BusOp> {
    if bytes == [] then [] else [Send(bytes[0])] + Sends(bytes[1..])
  }

  /** The slave acknowledges each of the bytes sent behind `ops`. */
  predicate TakesBytes(slave: Slave, ops: seq<BusOp>, bytes: seq<Byte>)
    decreases |bytes|
  {
    bytes != [] ==> slave.acks(ops + [Send(bytes[0])]) && TakesBytes(slave, ops + [Send(bytes[0])], bytes[1..])
  }

  lemma {:induction false} BytesRun(slave: Slave, commands: seq<nat>, capacity: Option<nat>, i: nat, j: nat,
                                    done: seq<bool>, raised: Raised, bus: Bus, bytes: seq<Byte>, tx: seq<Byte>,
                                    rx: seq<Byte>)
    requires WellFormed(commands, At(i, j, done, raised, bus, tx, rx)) && i < COMMAND_COUNT
    requires Opcode(commands[i]) == OP_WRITE && j + |bytes| <= Length(commands[i]) && Tolerant(commands[i])
    requires bus.addressed && !bus.addressPhase && !bus.read && !bus.lastNack && raised.byteDone
    requires TakesBytes(slave, bus.ops, bytes)
    ensures Run(slave, commands, At(i, j, done, raised, bus, bytes + tx, rx), capacity) ==
      Run(slave, commands, At(i, j + |bytes|, done, raised, More(bus, Sends(bytes)), tx, rx), capacity)
    decreases |bytes|
  {
    hide Run, Opcode, Length, Tolerant, TakesBytes, PutByte, Sends, Answers, Receives, More;
    FirstTaken(slave, bus.ops, bytes);
    if bytes == [] {
      assert [] + tx == tx;
      MoreTwice(bus, [], []);
    } else {
      var byte, later := bytes[0], bytes[1..] + tx;
      var sent := More(bus, [Send(byte)]);
      assert bytes + tx == [byte] + later;
      MoreTwice(bus, [Send(byte)], Sends(bytes[1..]));
      ByteSent(slave, bus, byte);
      SendStep(slave, commands, capacity, i, j, done, raised, bus, byte, later, rx);
      BytesRun(slave, commands, capacity, i, j + 1, done, raised, sent, bytes[1..], tx, rx);
    }
  }

  lemma {:induction false} FirstTaken(slave: Slave, ops: seq<BusOp>, bytes: seq<Byte>)
    requires TakesBytes(slave, ops, bytes)
    ensures bytes == [] ==> Sends(bytes) == []
    ensures bytes != [] ==> slave.acks(ops + [Send(bytes[0])]) && TakesBytes(slave, ops + [Send(bytes[0])], bytes[1..])
    ensures bytes != [] ==> Sends(bytes) == [Send(bytes[0])] + Sends(bytes[1..])
  {
  }

  lemma {:induction false} ByteSent(slave: Slave, bus: Bus, byte: Byte)
    requires bus.addressed && !bus.addressPhase && !bus.read && !bus.lastNack && slave.acks(bus.ops + [Send(byte)])
    ensures PutByte(slave, bus, byte) == More(bus, [Send(byte)])
    ensures var sent := More(bus, [Send(byte)]);
      && sent.ops == bus.ops + [Send(byte)]
      && sent.addressed && !sent.addressPhase && !sent.read && !sent.lastNack
  {
  }

  lemma {:induction false} SendStep(slave: Slave, commands: seq<nat>, capacity: Option<nat>, i: nat, j: nat,
                                    done: seq<bool>, raised: Raised, bus: Bus, byte: Byte, tx: seq<Byte>,
                                    rx: seq<Byte>)
    requires WellFormed(commands, At(i, j, done, raised, bus, tx, rx)) && i < COMMAND_COUNT
    requires Opcode(commands[i]) == OP_WRITE && j < Length(commands[i]) && Tolerant(commands[i])
    requires raised.byteDone && !PutByte(slave, bus, byte).lastNack
    ensures Run(slave, commands, At(i, j, done, raised, bus, [byte] + tx, rx), capacity) ==
      Run(slave, commands, At(i, j + 1, done, raised, PutByte(slave, bus, byte), tx, rx), capacity)
  {
    hide PutByte;
    assert ([byte] + tx)[1..] == tx;
    RunTakesStep(slave, commands, At(i, j, done, raised, bus, [byte] + tx, rx), capacity,
      At(i, j + 1, done, raised, PutByte(slave, bus, byte), tx, rx));
  }

  // ----- Reads -----

  function Receives(count: nat): seq<BusOp> {
    if count == 0 then [] else [Receive] + Receives(count - 1)
  }

  /** The slave's answers to `count` reads behind `ops`. */
  function Answers(slave: Slave, ops: seq<BusOp>, count: nat): (bytes: seq<Byte>)
    ensures |bytes| == count
    decreases count
  {
    if count == 0 then []
    else [slave.data(ops + [Receive])] + Answers(slave, ops + [Receive], count - 1)
  }

  lemma {:induction false} ReadsRun(slave: Slave, commands: seq<nat>, capacity: Option<nat>, i: nat, j: nat,
                                    done: seq<bool>, raised: Raised, bus: Bus, count: nat, tx: seq<Byte>,
                                    rx: seq<Byte>)
    requires WellFormed(commands, At(i, j, done, raised, bus, tx, rx)) && i < COMMAND_COUNT
    requires Opcode(commands[i]) == OP_READ && j + count <= Length(commands[i])
    requires bus.addressed && bus.read && raised.byteDone
    requires capacity.Some? ==> |rx| + count <= capacity.value
    ensures Run(slave, commands, At(i, j, done, raised, bus, tx, rx), capacity) ==
      Run(slave, commands, At(i, j + count, done, raised, More(bus, Receives(count)), tx,
        rx + Answers(slave, bus.ops, count)), capacity)
    decreases count
  {
    hide Run, Opcode, Length, Tolerant, TakesBytes, PutByte, Sends, Answers, Receives, More;
    FirstAnswer(slave, bus.ops, count);
    if count == 0 {
      assert rx + [] == rx;
      MoreTwice(bus, [], []);
    } else {
      var asked, byte := More(bus, [Receive]), slave.data(bus.ops + [Receive]);
      ReceiveStep(slave, commands, capacity, i, j, done, raised, bus, tx, rx);
      MoreTwice(bus, [Receive], Receives(count - 1));
      ReadsRun(slave, commands, capacity, i, j + 1, done, raised, asked, count - 1, tx, rx + [byte]);
      Behind(rx, byte, Answers(slave, asked.ops, count - 1));
    }
  }

  lemma {:induction false} Behind(rx: seq<Byte>, byte: Byte, later: seq<Byte>)
    ensures rx + [byte] + later == rx + ([byte] + later)
  {
  }

  lemma {:induction false} FirstAnswer(slave: Slave, ops: seq<BusOp>, count: nat)
    ensures count == 0 ==> Receives(count) == [] && Answers(slave, ops, count) == []
    ensures count > 0 ==> Receives(count) == [Receive] + Receives(count - 1)
    ensures count > 0 ==>
      Answers(slave, ops, count) == [slave.data(ops + [Receive])] + Answers(slave, ops + [Receive], count - 1)
  {
  }

  lemma {:induction false} ReceiveStep(slave: Slave, commands: seq<nat>, capacity: Option<nat>, i: nat, j: nat,
                                       done: seq<bool>, raised: Raised, bus: Bus, tx: seq<Byte>, rx: seq<Byte>)
    requires WellFormed(commands, At(i, j, done, raised, bus, tx, rx)) && i < COMMAND_COUNT
    requires Opcode(commands[i]) == OP_READ && j < Length(commands[i])
    requires bus.addressed && bus.read && raised.byteDone
    requires capacity.Some? ==> |rx| < capacity.value
    ensures More(bus, [Receive]).ops == bus.ops + [Receive]
    ensures More(bus, [Receive]).addressed && More(bus, [Receive]).read
    ensures Run(slave, commands, At(i, j, done, raised, bus, tx, rx), capacity) ==
      Run(slave, commands, At(i, j + 1, done, raised, More(bus, [Receive]), tx,
        rx + [slave.data(bus.ops + [Receive])]), capacity)
  {
    RunTakesStep(slave, commands, At(i, j, done, raised, bus, tx, rx), capacity,
      At(i, j + 1, done, raised, More(bus, [Receive]), tx, rx + [slave.data(bus.ops + [Receive])]));
  }

  // ----- A register read -----

  /** RESTART, WRITE of the address and the bytes, RESTART, WRITE of the address, READ, STOP. */
  predicate RegisterRead(commands: seq<nat>, bytes: nat, count: nat) {
    && |commands| == COMMAND_COUNT
    && Opcode(commands[0]) == OP_RESTART
    && Opcode(commands[1]) == OP_WRITE && Length(commands[1]) == 1 + bytes && Tolerant(commands[1])
    && Opcode(commands[2]) == OP_RESTART
    && Opcode(commands[3]) == OP_WRITE && Length(commands[3]) == 1 && Tolerant(commands[3])
    && Opcode(commands[4]) == OP_READ && Length(commands[4]) == count
    && Opcode(commands[5]) == OP_STOP
  }

  /** What the bus has done when the bytes are written, and when the device is selected to be read. */
  function Written(bus: Bus, a: nat, bytes: seq<Byte>): seq<BusOp> {
    bus.ops + Selection(bus, a, false) + Sends(bytes)
  }

  function Selected(bus: Bus, a: nat, bytes: seq<Byte>): seq<BusOp> {
    Written(bus, a, bytes) + [StartTransfer(a, true)]
  }

  /** The slave acknowledges its address, the bytes, and its address again. */
  predicate Acknowledges(slave: Slave, bus: Bus, a: nat, bytes: seq<Byte>) {
    && slave.acks(bus.ops + Selection(bus, a, false))
    && TakesBytes(slave, bus.ops + Selection(bus, a, false), bytes)
    && slave.acks(Selected(bus, a, bytes))
  }

  /** The interpreter is about to run a list from its first command. */
  function Begun(done: seq<bool>, raised: Raised, bus: Bus, tx: seq<Byte>, rx: seq<Byte>): Machine {
    At(0, 0, done, raised, bus, tx, rx)
  }

  /** The address and the bytes of a WRITE that begins with a START. */
  lemma {:induction false} WritePart(slave: Slave, commands: seq<nat>, capacity: Option<nat>, i: nat,
                                     done: seq<bool>, raised: Raised, bus: Bus, a: nat, read: bool,
                                     bytes: seq<Byte>, tx: seq<Byte>, rx: seq<Byte>)
    requires WellFormed(commands, At(i, 0, done, raised, bus, tx, rx)) && i + 1 < COMMAND_COUNT && a < 128
    requires Opcode(commands[i]) == OP_RESTART && Opcode(commands[i + 1]) == OP_WRITE
    requires Length(commands[i + 1]) == 1 + |bytes| && Tolerant(commands[i + 1]) && (read ==> bytes == [])
    requires slave.acks(bus.ops + Selection(bus, a, read))
    requires TakesBytes(slave, bus.ops + Selection(bus, a, read), bytes)
    ensures Run(slave, commands, At(i, 0, done, raised, bus, [AddressByte(a, read)] + bytes + tx, rx), capacity) ==
      Run(slave, commands, At(i + 2, 0, done[i := true][i + 1 := true], ByteDone(raised),
        Bus(bus.ops + Selection(bus, a, read) + Sends(bytes), a, true, true, false, read, false), tx, rx), capacity)
  {
    hide Run, Opcode, Length, Tolerant, TakesBytes;
    var begun := Bus(bus.ops, bus.address, true, false, true, bus.read, bus.lastNack);
    var ops := bus.ops + Selection(bus, a, read);
    var selected := Bus(ops, a, true, true, false, read, false);
    var all := [AddressByte(a, read)] + bytes + tx;
    RestartRuns(slave, commands, capacity, i, 0, done, raised, bus, all, rx);
    assert all == [AddressByte(a, read)] + (bytes + tx);
    AddressRuns(slave, commands, capacity, i + 1, done[i := true], raised, begun, bytes + tx, rx, a, read);
    if bytes == [] {
      assert bytes + tx == tx && ops + [] == ops;
    } else {
      BytesRun(slave, commands, capacity, i + 1, 1, done[i := true], ByteDone(raised), selected, bytes, tx, rx);
    }
    WriteEnds(slave, commands, capacity, i + 1, 1 + |bytes|, done[i := true], ByteDone(raised),
      selected.(ops := ops + Sends(bytes)), tx, rx);
  }

  /**
    The register read, for every device that acknowledges: it is selected to be written and gets the bytes in order, is
    selected again to be read and gives the bytes that are stored, and is released. Whatever was selected before is
    released first. All six commands are done, and `complete` is raised.
   */
  lemma {:induction false} RegisterReadRuns(slave: Slave, commands: seq<nat>, capacity: Option<nat>, done: seq<bool>,
                                            raised: Raised, bus: Bus, a: nat, bytes: seq<Byte>, count: nat,
                                            tx: seq<Byte>, rx: seq<Byte>)
    requires RegisterRead(commands, |bytes|, count) && |done| == COMMAND_COUNT && a < 128
    requires Acknowledges(slave, bus, a, bytes) && (capacity.Some? ==> |rx| + count <= capacity.value)
    ensures var selected := Selected(bus, a, bytes);
      Run(slave, commands,
        Begun(done, raised, bus, [AddressByte(a, false)] + bytes + ([AddressByte(a, true)] + tx), rx), capacity) ==
      Machine(
        Core(6, 0, false, [true, true, true, true, true, true] + done[6..],
          raised.(byteDone := true, complete := true),
          Bus(selected + Receives(count) + Final(commands[4]) + [EndTransfer], a, false, false, false, true, false)),
        tx, rx + Answers(slave, selected, count))
  {
    RegisterReadParts(commands, |bytes|, count);
    AcknowledgedParts(slave, bus, a, bytes);
    hide Run, Opcode, Length, Tolerant, TakesBytes, RegisterRead, Acknowledges, Answers, Sends, Final, Begun;
    var selected := Selected(bus, a, bytes);
    var done4 := done[0 := true][1 := true][2 := true][3 := true];
    SelectPart(slave, commands, capacity, done, raised, bus, a, bytes, tx, rx);
    var reading := Bus(selected, a, true, true, false, true, false);
    ReadPart(slave, commands, capacity, 4, done4, ByteDone(raised), reading, count, tx, rx);
    assert done4[4 := true][5 := true] == [true, true, true, true, true, true] + done[6..];
  }

  /** The first four commands. */
  lemma {:induction false} SelectPart(slave: Slave, commands: seq<nat>, capacity: Option<nat>, done: seq<bool>,
                                      raised: Raised, bus: Bus, a: nat, bytes: seq<Byte>, tx: seq<Byte>,
                                      rx: seq<Byte>)
    requires |commands| == COMMAND_COUNT == |done| && a < 128
    requires Opcode(commands[0]) == OP_RESTART && Opcode(commands[1]) == OP_WRITE && Opcode(commands[2]) == OP_RESTART
    requires Opcode(commands[3]) == OP_WRITE && Length(commands[1]) == 1 + |bytes| && Length(commands[3]) == 1
    requires Tolerant(commands[1]) && Tolerant(commands[3])
    requires slave.acks(bus.ops + Selection(bus, a, false)) && slave.acks(Selected(bus, a, bytes))
    requires TakesBytes(slave, bus.ops + Selection(bus, a, false), bytes)
    ensures Run(slave, commands,
        Begun(done, raised, bus, [AddressByte(a, false)] + bytes + ([AddressByte(a, true)] + tx), rx), capacity) ==
      Run(slave, commands, At(4, 0, done[0 := true][1 := true][2 := true][3 := true], ByteDone(raised),
        Bus(Selected(bus, a, bytes), a, true, true, false, true, false), tx, rx), capacity)
  {
    hide Run, Opcode, Length, Tolerant, TakesBytes, Sends, Selection;
    var second := [AddressByte(a, true)] + tx;
    WritePart(slave, commands, capacity, 0, done, raised, bus, a, false, bytes, second, rx);
    var written := Bus(Written(bus, a, bytes), a, true, true, false, false, false);
    ReselectPart(slave, commands, capacity, 2, done[0 := true][1 := true], ByteDone(raised), written, a, tx, rx);
  }

  /** Selecting the device that is selected already, to be read. */
  lemma {:induction false} ReselectPart(slave: Slave, commands: seq<nat>, capacity: Option<nat>, i: nat,
                                        done: seq<bool>, raised: Raised, bus: Bus, a: nat, tx: seq<Byte>,
                                        rx: seq<Byte>)
    requires |commands| == COMMAND_COUNT == |done| && i + 1 < COMMAND_COUNT && a < 128 && bus.address == a
    requires Opcode(commands[i]) == OP_RESTART && Opcode(commands[i + 1]) == OP_WRITE
    requires Length(commands[i + 1]) == 1 && Tolerant(commands[i + 1])
    requires slave.acks(bus.ops + [StartTransfer(a, true)])
    ensures Run(slave, commands, At(i, 0, done, raised, bus, [AddressByte(a, true)] + tx, rx), capacity) ==
      Run(slave, commands, At(i + 2, 0, done[i := true][i + 1 := true], ByteDone(raised),
        Bus(bus.ops + [StartTransfer(a, true)], a, true, true, false, true, false), tx, rx), capacity)
  {
    var ops := bus.ops + [StartTransfer(a, true)];
    assert TakesBytes(slave, ops, []) && Sends([]) == [];
    hide Run, Opcode, Length, Tolerant, TakesBytes, Sends;
    ReselectedOnly(a, bus);
    hide Selection;
    assert [AddressByte(a, true)] + [] + tx == [AddressByte(a, true)] + tx;
    assert ops + [] == ops;
    WritePart(slave, commands, capacity, i, done, raised, bus, a, true, [], tx, rx);
  }

  lemma {:induction false} RegisterReadParts(commands: seq<nat>, bytes: nat, count: nat)
    requires RegisterRead(commands, bytes, count)
    ensures |commands| == COMMAND_COUNT
    ensures Opcode(commands[0]) == OP_RESTART && Opcode(commands[1]) == OP_WRITE && Opcode(commands[2]) == OP_RESTART
    ensures Opcode(commands[3]) == OP_WRITE && Opcode(commands[4]) == OP_READ && Opcode(commands[5]) == OP_STOP
    ensures Length(commands[1]) == 1 + bytes && Length(commands[3]) == 1 && Length(commands[4]) == count
    ensures Tolerant(commands[1]) && Tolerant(commands[3])
  {
  }

  lemma {:induction false} AcknowledgedParts(slave: Slave, bus: Bus, a: nat, bytes: seq<Byte>)
    requires Acknowledges(slave, bus, a, bytes)
    ensures slave.acks(bus.ops + Selection(bus, a, false)) && slave.acks(Selected(bus, a, bytes))
    ensures TakesBytes(slave, bus.ops + Selection(bus, a, false), bytes)
  {
  }

  /** The device that is selected already is selected again without a release. */
  lemma {:induction false} ReselectedOnly(a: nat, bus: Bus)
    requires bus.address == a
    ensures Selection(bus, a, true) == [StartTransfer(a, true)]
  {
    assert [] + [StartTransfer(a, true)] == [StartTransfer(a, true)];
  }

  /** READ and STOP with the device selected. */
  lemma {:induction false} ReadPart(slave: Slave, commands: seq<nat>, capacity: Option<nat>, i: nat, done: seq<bool>,
                                    raised: Raised, bus: Bus, count: nat, tx: seq<Byte>, rx: seq<Byte>)
    requires |commands| == COMMAND_COUNT == |done| && i + 1 < COMMAND_COUNT
    requires raised.byteDone && (capacity.Some? ==> |rx| + count <= capacity.value)
    requires Opcode(commands[i]) == OP_READ && Length(commands[i]) == count && Opcode(commands[i + 1]) == OP_STOP
    requires bus.addressed && bus.read && bus.busy
    ensures Run(slave, commands, At(i, 0, done, raised, bus, tx, rx), capacity) ==
      Machine(Core(i + 2, 0, false, done[i := true][i + 1 := true], raised.(complete := true),
        Bus(bus.ops + Receives(count) + Final(commands[i]) + [EndTransfer], bus.address, false, false, false, true,
          bus.lastNack)),
        tx, rx + Answers(slave, bus.ops, count))
  {
    hide Run, Opcode, Length, Final, Answers, Receives;
    var read := More(bus, Receives(count));
    var rx' := rx + Answers(slave, bus.ops, count);
    ReadsRun(slave, commands, capacity, i, 0, done, raised, bus, count, tx, rx);
    ReadEnds(slave, commands, capacity, i, count, done, raised, read, tx, rx');
    StopEnds(slave, commands, capacity, i + 1, 0, done[i := true], raised,
      read.(ops := read.ops + Final(commands[i])), tx, rx');
  }

  // ----- A register read in two lists -----

  /** RESTART, WRITE of the address and the bytes, END. */
  predicate FirstHalf(commands: seq<nat>, bytes: nat) {
    && |commands| == COMMAND_COUNT
    && Opcode(commands[0]) == OP_RESTART
    && Opcode(commands[1]) == OP_WRITE && Length(commands[1]) == 1 + bytes && Tolerant(commands[1])
    && Opcode(commands[2]) == OP_END
  }

  /** RESTART, WRITE of the address, READ, STOP. */
  predicate SecondHalf(commands: seq<nat>, count: nat) {
    && |commands| == COMMAND_COUNT
    && Opcode(commands[0]) == OP_RESTART
    && Opcode(commands[1]) == OP_WRITE && Length(commands[1]) == 1 && Tolerant(commands[1])
    && Opcode(commands[2]) == OP_READ && Length(commands[2]) == count
    && Opcode(commands[3]) == OP_STOP
  }

  lemma {:induction false} EndPauses(slave: Slave, commands: seq<nat>, capacity: Option<nat>, i: nat, j: nat,
                                     done: seq<bool>, raised: Raised, bus: Bus, tx: seq<Byte>, rx: seq<Byte>)
    requires WellFormed(commands, At(i, j, done, raised, bus, tx, rx)) && i < COMMAND_COUNT
    requires Opcode(commands[i]) == OP_END
    ensures Run(slave, commands, At(i, j, done, raised, bus, tx, rx), capacity) ==
      Machine(Core(i + 1, 0, false, done[i := true], raised.(endDetect := true), bus), tx, rx)
  {
    var end := Machine(Core(i + 1, 0, false, done[i := true], raised.(endDetect := true), bus), tx, rx);
    RunTakesStep(slave, commands, At(i, j, done, raised, bus, tx, rx), capacity, end);
    RunRests(slave, commands, end, capacity);
  }

  lemma {:induction false} FirstHalfRuns(slave: Slave, commands: seq<nat>, capacity: Option<nat>, done: seq<bool>,
                                         raised: Raised, bus: Bus, a: nat, bytes: seq<Byte>, tx: seq<Byte>,
                                         rx: seq<Byte>)
    requires FirstHalf(commands, |bytes|) && |done| == COMMAND_COUNT && a < 128 && Acknowledges(slave, bus, a, bytes)
    ensures Run(slave, commands, Begun(done, raised, bus, [AddressByte(a, false)] + bytes + tx, rx), capacity) ==
      Machine(Core(3, 0, false, done[0 := true][1 := true][2 := true], raised.(byteDone := true, endDetect := true),
        Bus(Written(bus, a, bytes), a, true, true, false, false, false)), tx, rx)
  {
    hide Run, Opcode, Length, Tolerant, TakesBytes, Sends, Selection;
    WritePart(slave, commands, capacity, 0, done, raised, bus, a, false, bytes, tx, rx);
    EndPauses(slave, commands, capacity, 2, 0, done[0 := true][1 := true], ByteDone(raised),
      Bus(Written(bus, a, bytes), a, true, true, false, false, false), tx, rx);
  }

  lemma {:induction false} SecondHalfRuns(slave: Slave, commands: seq<nat>, capacity: Option<nat>, done: seq<bool>,
                                          raised: Raised, bus: Bus, a: nat, count: nat, tx: seq<Byte>, rx: seq<Byte>)
    requires SecondHalf(commands, count) && |done| == COMMAND_COUNT && a < 128 && bus.address == a
    requires slave.acks(bus.ops + [StartTransfer(a, true)]) && (capacity.Some? ==> |rx| + count <= capacity.value)
    ensures var selected := bus.ops + [StartTransfer(a, true)];
      Run(slave, commands, Begun(done, raised, bus, [AddressByte(a, true)] + tx, rx), capacity) ==
      Machine(Core(4, 0, false, done[0 := true][1 := true][2 := true][3 := true],
          raised.(byteDone := true, complete := true),
          Bus(selected + Receives(count) + Final(commands[2]) + [EndTransfer], a, false, false, false, true, false)),
        tx, rx + Answers(slave, selected, count))
  {
    hide Run, Opcode, Length, Tolerant, Receives, Answers, Final;
    ReselectPart(slave, commands, capacity, 0, done, raised, bus, a, tx, rx);
    ReadPart(slave, commands, capacity, 2, done[0 := true][1 := true], ByteDone(raised),
      Bus(bus.ops + [StartTransfer(a, true)], a, true, true, false, true, false), count, tx, rx);
  }

  /**
    A register read cut in two by END, the second list started when the first has paused: the bus has done, and software
    reads, what one list for the whole register read gives.
   */
  lemma {:induction false} EndCutIsInvisible(slave: Slave, first: seq<nat>, second: seq<nat>, whole: seq<nat>,
                                             capacity: Option<nat>, done: seq<bool>, raised: Raised, bus: Bus, a: nat,
                                             bytes: seq<Byte>, count: nat, tx: seq<Byte>, rx: seq<Byte>)
    requires FirstHalf(first, |bytes|) && SecondHalf(second, count) && RegisterRead(whole, |bytes|, count)
    requires AckValue(second[2]) == AckValue(whole[4]) && |done| == COMMAND_COUNT && a < 128
    requires Acknowledges(slave, bus, a, bytes) && (capacity.Some? ==> |rx| + count <= capacity.value)
    ensures var input := [AddressByte(a, false)] + bytes + ([AddressByte(a, true)] + tx);
      var begun := Begun(done, raised, bus, input, rx);
      var paused := Run(slave, first, begun, capacity);
      var cut := Run(slave, second, Begin(paused), capacity);
      var one := Run(slave, whole, begun, capacity);
      && !paused.core.running && paused.core.raised.endDetect
      && !cut.core.running && cut.core.raised.complete
      && cut.core.bus == one.core.bus && cut.tx == one.tx && cut.rx == one.rx
  {
    var later := [AddressByte(a, true)] + tx;
    var fresh' := seq(COMMAND_COUNT, _ => false);
    var written := Bus(Written(bus, a, bytes), a, true, true, false, false, false);
    assert Final(second[2]) == Final(whole[4]);
    hide Run, FirstHalf, SecondHalf, RegisterRead, Receives, Answers, Final, AckValue, Selection, Sends;
    FirstHalfRuns(slave, first, capacity, done, raised, bus, a, bytes, later, rx);
    SecondHalfRuns(slave, second, capacity, fresh', raised.(byteDone := true, endDetect := true), written, a, count, tx,
      rx);
    RegisterReadRuns(slave, whole, capacity, done, raised, bus, a, bytes, count, tx, rx);
  }

  // ----- How lists stop -----

  /** A list that was running and has stopped raised what it stopped for. */
  lemma {:induction false} StoppedIsReported(slave: Slave, commands: seq<nat>, m: Machine, capacity: Option<nat>)
    requires WellFormed(commands, m) && m.core.running
    ensures var r := Run(slave, commands, m, capacity).core;
      !r.running ==> r.raised.complete || r.raised.endDetect || r.raised.nack || r.raised.timeout
    decreases Fuel(commands, m)
  {
    hide Fuel, PutByte, GetByte, EndBus, Opcode, Length, AckCheck, AckExpected, AckValue;
    var next := Step(slave, commands, m, Room(capacity, m.rx));
    if next.Some? {
      StepBurnsFuel(slave, commands, m, Room(capacity, m.rx));
      RunTakesStep(slave, commands, m, capacity, next.value);
      if next.value.core.running {
        StoppedIsReported(slave, commands, next.value, capacity);
      } else {
        StoppedRests(slave, commands, next.value, Room(capacity, next.value.rx));
        RunRests(slave, commands, next.value, capacity);
      }
    }
  }

  // ----- Refusals -----

  /** A command that stops the list when the slave refuses a byte. */
  predicate Checks(command: nat) {
    AckCheck(command) && !AckExpected(command)
  }

  /** The list ended by a refused byte: only the release of the bus is behind `ops`. */
  function Refused(index: nat, byteIndex: nat, done: seq<bool>, raised: Raised, ops: seq<BusOp>, a: nat, read: bool,
                   tx: seq<Byte>, rx: seq<Byte>): Machine {
    Machine(Core(index, byteIndex, false, done, raised.(byteDone := true, nack := true),
      Bus(ops + [EndTransfer], a, false, false, false, read, true)), tx, rx)
  }

  /** A device that refuses a byte, the ones before acknowledged, gets nothing more: the list ends there. */
  lemma {:induction false} RefusedByteEnds(slave: Slave, commands: seq<nat>, capacity: Option<nat>, i: nat,
                                           done: seq<bool>, raised: Raised, bus: Bus, a: nat, bytes: seq<Byte>,
                                           bad: Byte, tx: seq<Byte>, rx: seq<Byte>)
    requires WellFormed(commands, At(i, 0, done, raised, bus, tx, rx)) && i + 1 < COMMAND_COUNT && a < 128
    requires Opcode(commands[i]) == OP_RESTART && Opcode(commands[i + 1]) == OP_WRITE
    requires 1 + |bytes| < Length(commands[i + 1]) && Checks(commands[i + 1])
    requires slave.acks(bus.ops + Selection(bus, a, false))
    requires TakesBytes(slave, bus.ops + Selection(bus, a, false), bytes)
    requires !slave.acks(bus.ops + Selection(bus, a, false) + Sends(bytes) + [Send(bad)])
    ensures Run(slave, commands,
        At(i, 0, done, raised, bus, [AddressByte(a, false)] + bytes + ([bad] + tx), rx), capacity) ==
      Refused(i + 1, 2 + |bytes|, done[i := true], raised,
        bus.ops + Selection(bus, a, false) + Sends(bytes) + [Send(bad)], a, false, tx, rx)
  {
    hide Run, Opcode, Length, TakesBytes, Selection, Sends;
    var begun := Bus(bus.ops, bus.address, true, false, true, bus.read, bus.lastNack);
    var ops, later := bus.ops + Selection(bus, a, false), [bad] + tx;
    var selected := Bus(ops, a, true, true, false, false, false);
    var all := [AddressByte(a, false)] + bytes + later;
    RestartRuns(slave, commands, capacity, i, 0, done, raised, bus, all, rx);
    assert all == [AddressByte(a, false)] + (bytes + later);
    SameSelection(bus, begun, a, false);
    AddressRuns(slave, commands, capacity, i + 1, done[i := true], raised, begun, bytes + later, rx, a, false);
    BytesRun(slave, commands, capacity, i + 1, 1, done[i := true], ByteDone(raised), selected, bytes, later, rx);
    RefusedStep(slave, commands, capacity, i + 1, 1 + |bytes|, done[i := true], ByteDone(raised),
      More(selected, Sends(bytes)), bad, tx, rx);
  }

  lemma {:induction false} SameSelection(bus: Bus, other: Bus, a: nat, read: bool)
    requires other.address == bus.address
    ensures Selection(other, a, read) == Selection(bus, a, read)
  {
  }

  lemma {:induction false} RefusedStep(slave: Slave, commands: seq<nat>, capacity: Option<nat>, i: nat, j: nat,
                                       done: seq<bool>, raised: Raised, bus: Bus, bad: Byte, tx: seq<Byte>,
                                       rx: seq<Byte>)
    requires WellFormed(commands, At(i, j, done, raised, bus, tx, rx)) && i < COMMAND_COUNT
    requires Opcode(commands[i]) == OP_WRITE && j < Length(commands[i]) && Checks(commands[i])
    requires bus.addressed && !bus.addressPhase && !bus.read && bus.busy && !slave.acks(bus.ops + [Send(bad)])
    ensures Run(slave, commands, At(i, j, done, raised, bus, [bad] + tx, rx), capacity) ==
      Refused(i, j + 1, done, raised, bus.ops + [Send(bad)], bus.address, false, tx, rx)
  {
    assert ([bad] + tx)[1..] == tx;
    var end := Refused(i, j + 1, done, raised, bus.ops + [Send(bad)], bus.address, false, tx, rx);
    RunTakesStep(slave, commands, At(i, j, done, raised, bus, [bad] + tx, rx), capacity, end);
    RunRests(slave, commands, end, capacity);
  }

  /** A device that refuses its address gets no byte at all. */
  lemma {:induction false} RefusedAddressEnds(slave: Slave, commands: seq<nat>, capacity: Option<nat>, i: nat,
                                              done: seq<bool>, raised: Raised, bus: Bus, a: nat, read: bool,
                                              tx: seq<Byte>, rx: seq<Byte>)
    requires WellFormed(commands, At(i, 0, done, raised, bus, tx, rx)) && i + 1 < COMMAND_COUNT && a < 128
    requires Opcode(commands[i]) == OP_RESTART && Opcode(commands[i + 1]) == OP_WRITE
    requires 0 < Length(commands[i + 1]) && Checks(commands[i + 1])
    requires !slave.acks(bus.ops + Selection(bus, a, read))
    ensures Run(slave, commands, At(i, 0, done, raised, bus, [AddressByte(a, read)] + tx, rx), capacity) ==
      Refused(i + 1, 1, done[i := true], raised, bus.ops + Selection(bus, a, read) + [EndTransfer], a, read, tx, rx)
  {
    var begun := Bus(bus.ops, bus.address, true, false, true, bus.read, bus.lastNack);
    var m := At(i + 1, 0, done[i := true], raised, begun, [AddressByte(a, read)] + tx, rx);
    RestartRuns(slave, commands, capacity, i, 0, done, raised, bus, [AddressByte(a, read)] + tx, rx);
    AddressRefused(slave, begun, a, read);
    SameSelection(bus, begun, a, read);
    assert ([AddressByte(a, read)] + tx)[1..] == tx;
    var end := Refused(i + 1, 1, done[i := true], raised, bus.ops + Selection(bus, a, read) + [EndTransfer], a, read,
      tx, rx);
    hide Run, PutByte, Selection;
    RunTakesStep(slave, commands, m, capacity, end);
    RunRests(slave, commands, end, capacity);
  }

  lemma {:induction false} AddressRefused(slave: Slave, bus: Bus, a: nat, read: bool)
    requires a < 128 && bus.addressPhase && !slave.acks(bus.ops + Selection(bus, a, read))
    ensures PutByte(slave, bus, AddressByte(a, read)) ==
      Bus(bus.ops + Selection(bus, a, read) + [EndTransfer], a, bus.busy, false, false, read, true)
  {
    var byte := AddressByte(a, read);
    assert byte / 2 == a && (byte % 2 == 1) == read;
    assert bus.ops + ([EndTransfer] + [StartTransfer(a, read)]) == bus.ops + [EndTransfer] + [StartTransfer(a, read)];
    assert [] + [StartTransfer(a, read)] == [StartTransfer(a, read)];
  }

  // ----- The direction of transfers -----

  /** The direction of the transfer that is under way behind these operations: to read, to write, or none. */
  function Direction(ops: seq<BusOp>): Option<bool> {
    if ops == [] then None
    else
      match ops[|ops| - 1]
      case StartTransfer(_, read) => Some(read)
      case EndTransfer => None
      case _ => Direction(ops[..|ops| - 1])
  }

  predicate Fits(before: seq<BusOp>, op: BusOp) {
    && (op.Send? ==> Direction(before) == Some(false))
    && (op.Receive? ==> Direction(before) == Some(true))
    && (op.Nack? ==> Direction(before).Some?)
  }

  /** Bytes go to a device only in a transfer begun to write, and come from it only in one begun to read. */
  predicate Directed(ops: seq<BusOp>) {
    forall k :: 0 <= k < |ops| ==> Fits(ops[..k], ops[k])
  }

  predicate BusDirected(b: Bus) {
    Directed(b.ops) && (b.addressed ==> Direction(b.ops) == Some(b.read))
  }

  lemma {:induction false} OneMore(ops: seq<BusOp>, op: BusOp)
    requires Directed(ops) && Fits(ops, op)
    ensures Directed(ops + [op])
    ensures Direction(ops + [op]) ==
      match op { case StartTransfer(_, read) => Some(read) case EndTransfer => None case _ => Direction(ops) }
  {
    hide Fits;
    var all := ops + [op];
    assert all[..|ops|] == ops;
    forall k | 0 <= k < |all|
      ensures Fits(all[..k], all[k])
    {
      if k < |ops| { assert all[..k] == ops[..k]; }
    }
  }

  lemma {:induction false} EndDirected(b: Bus)
    requires BusDirected(b)
    ensures BusDirected(EndBus(b))
  {
    hide Directed, Direction;
    OneMore(b.ops, EndTransfer);
  }

  lemma {:induction false} PutDirected(slave: Slave, b: Bus, byte: Byte)
    requires BusDirected(b)
    ensures BusDirected(PutByte(slave, b, byte))
  {
    hide Directed, Direction;
    OneMore(b.ops, EndTransfer);
    var released := if byte / 2 != b.address then b.ops + [EndTransfer] else b.ops;
    var start := StartTransfer(byte / 2, byte % 2 == 1);
    OneMore(released, start);
    OneMore(released + [start], EndTransfer);
    if b.addressed && !b.read { OneMore(b.ops, Send(byte)); }
  }

  lemma {:induction false} GetDirected(slave: Slave, b: Bus)
    requires BusDirected(b)
    ensures BusDirected(GetByte(slave, b).0)
    ensures b.addressed ==> BusDirected(Did(b, Nack))
  {
    hide Directed, Direction;
    if b.addressed { OneMore(b.ops, Nack); }
    if b.addressed && b.read { OneMore(b.ops, Receive); }
  }

  lemma {:induction false} StepDirected(slave: Slave, commands: seq<nat>, m: Machine, room: bool)
    requires WellFormed(commands, m) && BusDirected(m.core.bus)
    ensures Step(slave, commands, m, room).Some? ==> BusDirected(Step(slave, commands, m, room).value.core.bus)
  {
    hide Directed, Direction, PutByte, GetByte, EndBus, Opcode, Length, AckCheck, AckExpected, AckValue;
    var b := m.core.bus;
    EndDirected(b);
    GetDirected(slave, b);
    if m.tx != [] {
      PutDirected(slave, b, m.tx[0]);
      EndDirected(PutByte(slave, b, m.tx[0]));
    }
  }

  lemma {:induction false} RunDirected(slave: Slave, commands: seq<nat>, m: Machine, capacity: Option<nat>)
    requires WellFormed(commands, m) && BusDirected(m.core.bus)
    ensures BusDirected(Run(slave, commands, m, capacity).core.bus)
    decreases Fuel(commands, m)
  {
    hide Step, BusDirected, Fuel;
    var next := Step(slave, commands, m, Room(capacity, m.rx));
    if next.Some? {
      StepBurnsFuel(slave, commands, m, Room(capacity, m.rx));
      StepDirected(slave, commands, m, Room(capacity, m.rx));
      RunDirected(slave, commands, next.value, capacity);
    }
  }

  /** What software does: program and start a list, or access the data register. */
  datatype Use = Starts(commands: seq<nat>) | Accesses(access: Access)

  function Used(slave: Slave, commands: seq<nat>, s: Session, uses: seq<Use>): (r: Session)
    requires WellFormed(commands, s.m) && forall u :: u in uses && u.Starts? ==> |u.commands| == COMMAND_COUNT
    decreases |uses|
  {
    if uses == [] then s
    else
      assert uses[0] in uses;
      match uses[0]
      case Starts(list) =>
        Used(slave, list, s.(m := Run(slave, list, Begin(s.m), Some(FIFO_CAPACITY))), uses[1..])
      case Accesses(a) => Used(slave, commands, Access1(slave, commands, s, a), uses[1..])
  }

  /**
    However lists are programmed and FIFOs are fed, for every device: bytes are sent only in a transfer begun to write,
    and received only in one begun to read.
   */
  lemma {:induction false} TransfersKeepDirection(slave: Slave, commands: seq<nat>, s: Session, uses: seq<Use>)
    requires WellFormed(commands, s.m) && forall u :: u in uses && u.Starts? ==> |u.commands| == COMMAND_COUNT
    requires BusDirected(s.m.core.bus)
    ensures BusDirected(Used(slave, commands, s, uses).m.core.bus)
    decreases |uses|
  {
    hide Run, BusDirected;
    if uses != [] {
      assert uses[0] in uses;
      match uses[0] {
        case Starts(list) =>
          RunDirected(slave, list, Begin(s.m), Some(FIFO_CAPACITY));
          TransfersKeepDirection(slave, list, s.(m := Run(slave, list, Begin(s.m), Some(FIFO_CAPACITY))), uses[1..]);
        case Accesses(a) =>
          AccessDirected(slave, commands, s, a);
          TransfersKeepDirection(slave, commands, Access1(slave, commands, s, a), uses[1..]);
      }
    }
  }

  lemma {:induction false} AccessDirected(slave: Slave, commands: seq<nat>, s: Session, a: Access)
    requires WellFormed(commands, s.m) && BusDirected(s.m.core.bus)
    ensures BusDirected(Access1(slave, commands, s, a).m.core.bus)
  {
    hide Run, BusDirected;
    match a {
      case Push(byte) => RunDirected(slave, commands, s.m.(tx := s.m.tx + [byte]), Some(FIFO_CAPACITY));
      case Pop =>
        if s.m.rx != [] { RunDirected(slave, commands, s.m.(rx := s.m.rx[1..]), Some(FIFO_CAPACITY)); }
    }
  }
}
