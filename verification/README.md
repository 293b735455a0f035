# Device and link models of the emulator

This project models the parts of the emulator whose correctness depends on state that lives across many calls, and
proves what those parts promise. Each component is a state machine on values together with lemmas about all of its
runs; where the program updates an object in place, a class with the same fields carries the same operations, and each
of its methods is proved equal to the step of that state machine.

| component | modules |
|---|---|
| real-time clock RX8130CE: civil calendar, rotating weekday, alarm search, register file | `Calendar`, `Weekday`, `Alarm`, `Rx8130ceDevice` |
| I2C controller: command interpreter that pauses on its FIFOs | `I2cEngine`, `I2cTransactions`, `Esp32s3I2cDevice` |
| SPI controller: reads from a GDMA descriptor chain | `SpiDma`, `SpiHistory`, `Esp32s3SpiDevice` |
| display panel: pixel writes through an address window | `Gram`, `PanelProtocol`, `Co5300Device` |
| RTC controller: slow-clock alarm, light sleep, wake sources | `RtcClock`, `LightSleep`, `Esp32s3RtcDevice` |
| Bluetooth link: connect, disconnect and reset between two processes | `LinkProtocol`, `LinkSafety`, `LinkCloses`, `LinkData`, `LinkEnds` |
| message framing over a byte stream | `Framing`, `FramingSafety`, `PeerSocketObject` |
| HCI: event queue, delivery, credits; L2CAP over ACL packets | `HciQueue`, `HciDelivery`, `HciInbound`, `HciSafety`, `BleTransportObject`, `L2cap` |
| ATT client: request queue, long writes | `AttQueue`, `AttSafety`, `AttProgress`, `LongWrite`, `AttAnswers`, `AttClientObject` |
| GATT: catalog publication, discovery, and their agreement | `GattBytes`, `Catalog`, `CatalogAccess`, `Discovery`, `ConformingServer`, `DiscoveryFinds`, `AttributeTable`, `ServiceGrowth`, `TreeRelation`, `DiscoveryAgrees`, `DiscoveryComplete` |
| helpers: bytes and bits, division | `Bits`, `Division` |

`dafny verify dfyconfig.toml` checks the whole project.

Clocks, the network, the operating system's answers, guest memory, masks set by the guest and the answers of servers and
slaves are parameters: the lemmas hold for all of them.

## Where the code does not keep a promise in full

Seven promises hold only under a condition. Each is proved as an if-and-only-if, mostly with an input that shows the
failure:

- A published service table is rediscovered exactly when no handle is skipped right before a service declaration: the
  catalog ends a service right before the next one, a server where its last attribute is
  (`DiscoveryAgrees.DiscoveryReproducesCatalog`, `DiscoveryComplete.GapIsRefused`).
- Cutting an SPI transfer in two shows exactly in three situations of memory and registers before it
  (`SpiDma.TransferSplits`): the chain stands at descriptor 0 after the first part, and a descriptor at address 0 would
  have served the rest (`SpiDma.ChainThroughZero`); the chain stands at descriptor 0, and another started channel serves
  the rest instead; or the cut is just where a buffer's 32-bit addresses start again from 0, which one bus access may not
  run across (`SpiDma.ReadSplits`).
- An alarm exactly 2^47 ticks ahead fires at once (`LightSleep.AlarmStarts`, `RtcClock.HalfwayFiresAtOnce`).
- A success response to an MTU exchange with an unusable value ends the link without the exchange's caller being told
  (`AttSafety.CallersAreTold`, `AttSafety.InvalidMtuResponseLosesCaller`).
- A close requested before the connection has a generation has its connection attempt, or the answer, on the way until
  the peer has taken a rejection (`LinkCloses.UnnamedCloseUnderway`). When the controller takes the attempt, the close is
  answered if the controller accepts (not connected, advertising connectably, enabled), and stalls if it does not
  (`LinkCloses.AttemptDecides`); then only the setup deadline, a reset or the end of the transport ends it
  (`LinkCloses.StalledStays`, `LinkCloses.UnnamedCloseCanStall`).
- An SDU that a host cuts at will, within its credits, reaches the peer if and only if its first packet holds the whole
  four-byte header; a shorter first packet ends the emulation (`L2cap.AnyCutAssembles`, `L2cap.HeaderCutFails`).
- The panel's cursor follows its window exactly when no 16-bit register wraps to a place other than the window's start
  (`Gram.PlacesKeptExactly`).

## Model

| member | source | states |
|---|---|---|
| Calendar.DayNumberOfDate | qemu/devices/rx8130ce.c:149-164 | the date reached by counting days from 1970 and the closed formula with leap years agree for every day |
| Calendar.DateOfDayNumber | qemu/devices/rx8130ce.c:166-193 | every calendar date is reached, at its day number, and at no other |
| Weekday.RebaseKeepsWeek | qemu/devices/rx8130ce.c:84-90 | turning the weekday mask to some day and going on from there gives, on every other day, the weekday of the original base |
| Weekday.WeekAtCountsMidnights | qemu/devices/rx8130ce.c:84-90 | the rotation by days modulo seven is one turn of the seven bits for every midnight passed |
| Alarm.CommittedFaceIsRead | qemu/devices/rx8130ce.c:149-193 | a valid calendar setting that is committed is read back register for register |
| Alarm.ReadFaceCommits | qemu/devices/rx8130ce.c:149-193 | writing back the registers just read sets the same second, for all of 2000 to 2099 |
| Alarm.MatchExists | qemu/devices/rx8130ce.c:99-111 | every accepted alarm setting matches again after any instant: any day 1 to 31, any weekday mask |
| Alarm.DaySkip | qemu/devices/rx8130ce.c:120-124 | no match lies between a non-matching day's instant and the next midnight |
| Alarm.HourSkip | qemu/devices/rx8130ce.c:125-129 | no match lies before the next start of the alarm hour |
| Alarm.MinuteSkip | qemu/devices/rx8130ce.c:130-134 | no match lies before the next occurrence of the alarm minute |
| Alarm.NextMatch | qemu/devices/rx8130ce.c:113-138 | the search ends and finds the least minute boundary strictly after now at which every unmasked field agrees |
| Rx8130ceDevice.Rx8130ce.UpdateAlarm | qemu/devices/rx8130ce.c:92-140 | afterwards the timer is armed exactly when the alarm can ring, on the next match; calendar and weekday are conserved |
| Rx8130ceDevice.Rx8130ce.ArmedForNext | qemu/devices/rx8130ce.c:92-147 | in every valid state before the deadline, the armed second is the first match strictly after the calendar time |
| Rx8130ceDevice.Rx8130ce.AlarmExpired | qemu/devices/rx8130ce.c:142-147 | the alarm flag is raised and the next match armed; calendar time goes on |
| Rx8130ceDevice.Rx8130ce.Snapshot | qemu/devices/rx8130ce.c:149-164 | the calendar registers show the present second and weekday |
| Rx8130ceDevice.Rx8130ce.Commit | qemu/devices/rx8130ce.c:166-193 | a valid setting becomes the calendar time from now on; an invalid one is refused; alarm and conservation hold after both |
| Rx8130ceDevice.Rx8130ce.ToggleStop | qemu/devices/rx8130ce.c:233-246 | stopping holds calendar time, resuming continues it from where it stood |
| Rx8130ceDevice.Rx8130ce.DeviceEvent | qemu/devices/rx8130ce.c:195-207 | start of a read takes a snapshot, end of a transfer commits, and the invariant is kept |
| Rx8130ceDevice.Rx8130ce.DeviceSend | qemu/devices/rx8130ce.c:215-257 | every register write keeps calendar conservation, the alarm's soundness and the interrupt line |
| I2cEngine.ScheduleKeepsOneShot | qemu/esp32s3/esp32s3_i2c.c:148-254 | whatever FIFO accesses come, what remains to be done is the rest of the one uninterrupted run |
| I2cEngine.ScheduleIndependence | qemu/esp32s3/esp32s3_i2c.c:148-281 | once the engine rests, bus operations, done bits, status and bytes read are those of one run with unbounded FIFOs |
| I2cEngine.SchedulesAgree | qemu/esp32s3/esp32s3_i2c.c:148-281 | two schedules that feed the same bytes and let the engine stop agree on everything |
| I2cEngine.WaitsOnlyForFifos | qemu/esp32s3/esp32s3_i2c.c:176-228 | the engine pauses only for an empty TX FIFO in a write or a full RX FIFO in a read |
| I2cTransactions.RegisterReadRuns | qemu/esp32s3/esp32s3_i2c.c:132-254 | a list RESTART, WRITE, RESTART, WRITE, READ, STOP, for every device that acknowledges and any bus before it: the device is selected to write, gets the bytes in order, is selected to read, gives the k bytes stored, gets the final refusal if asked for, and is released; all six commands are done and `complete` is raised |
| I2cTransactions.RefusedByteEnds | qemu/esp32s3/esp32s3_i2c.c:192-199 | a device that refuses a checked byte gets nothing more: the bus is released, `nack` raised, and what is left stays in the FIFO |
| I2cTransactions.RefusedAddressEnds | qemu/esp32s3/esp32s3_i2c.c:132-146 | a device that refuses its address, to read or to write, gets no byte at all |
| I2cTransactions.EndCutIsInvisible | qemu/esp32s3/esp32s3_i2c.c:226-231 | a register read cut in two lists by END does on the bus, and gives software, what one list does |
| I2cTransactions.TransfersKeepDirection | qemu/esp32s3/esp32s3_i2c.c:132-228 | however lists are programmed and FIFOs fed: bytes are sent only in a transfer begun to write, and received only in one begun to read |
| I2cTransactions.StoppedIsReported | qemu/esp32s3/esp32s3_i2c.c:219-253 | a list that stops has raised completion, its end, a refusal or a timeout |
| Esp32s3I2cDevice.Esp32s3I2c.RunCommands | qemu/esp32s3/esp32s3_i2c.c:148-254 | the nested loops over ring buffers do what the interpreter's steps do, up to where it rests (`I2cTransactions` says what lists do) |
| Esp32s3I2cDevice.Esp32s3I2c.WriteData | qemu/esp32s3/esp32s3_i2c.c:355-367 | a data write is one push of the schedule, an overflowing one is lost |
| Esp32s3I2cDevice.Esp32s3I2c.ReadData | qemu/esp32s3/esp32s3_i2c.c:268-281 | a data read is one pop of the schedule |
| Esp32s3I2cDevice.Esp32s3I2c.Start | qemu/esp32s3/esp32s3_i2c.c:320-340 | starting runs the list from its first command |
| SpiDma.ReadServes | qemu/esp32s3/esp32s3_spi.c:115-170 | a read succeeds exactly when, following Length and Next from the position, descriptors are present, owned and unfinished and their buffers answer; it ends where that walk ends |
| SpiDma.ReadSplits | qemu/esp32s3/esp32s3_spi.c:115-170 | for any memory within 32-bit addresses: reading n and then m bytes gives data, position, hand-backs, history and interrupts of reading n + m, if and only if the cut is not where a buffer starts again from address 0 and serves m bytes there |
| SpiDma.TransferSplits | qemu/esp32s3/esp32s3_spi.c:88-174 | with the choice among any number of channels: a cut of a transfer is invisible if and only if none of the three situations holds in the memory and registers before it |
| SpiDma.ChainThroughZero | qemu/esp32s3/esp32s3_spi.c:104-113 | a memory for which the cut shows: a descriptor at address 0 |
| SpiDma.ReadsStream | qemu/esp32s3/esp32s3_spi.c:115-170 | a successful read returns the bytes of the flat stream of buffers laid out in the original memory, if hand-backs do not write into it |
| SpiDma.ReadsStreamUntouched | qemu/esp32s3/esp32s3_spi.c:115-170 | without hand-backs, for every memory, a successful read returns the flat stream |
| SpiHistory.ReadRecords | qemu/esp32s3/esp32s3_spi.c:142-168 | a whole read leaves the registers the descriptors it used up call for: the last two and the next one, the frame-end interrupt and address if and only if one had bit 30, the chain-end interrupt and the parking if and only if one had no next |
| SpiHistory.FirstWordFields | qemu/esp32s3/esp32s3_spi.c:123-128 | length, ownership and frame end are bits 12 to 23, 31 and 30 of the first word |
| SpiHistory.HandBackClearsOwner | qemu/esp32s3/esp32s3_spi.c:144-153 | a hand-back clears bit 31 of the first word and nothing else of memory |
| Esp32s3SpiDevice.Esp32s3Spi.ChooseChannel | qemu/esp32s3/esp32s3_spi.c:92-113 | the first channel that was started or is in its chain is chosen, and its start request taken |
| Esp32s3SpiDevice.Esp32s3Spi.FinishDescriptor | qemu/esp32s3/esp32s3_spi.c:142-168 | hand-back, history, interrupt bits and next descriptor of a used-up descriptor |
| Esp32s3SpiDevice.Esp32s3Spi.Read | qemu/esp32s3/esp32s3_spi.c:88-174 | the loop fills the buffer with the chain's next bytes or fails where the chain cannot go on |
| RtcClock.DeadlineReaches | patches/esp32s3-light-sleep.patch:103-119 | a deadline of r ticks, rounded down plus one nanosecond, is at least r ticks on, from any instant and at any frequency |
| RtcClock.DeadlineIsPrompt | patches/esp32s3-light-sleep.patch:103-119 | it comes less than a clock period and a nanosecond after the count got there |
| RtcClock.SchedulesPunctually | patches/esp32s3-light-sleep.patch:103-119 | an alarm that is not overdue is armed for its tick on the 48-bit counter, also across a wrap |
| RtcClock.HalfwayFiresAtOnce | patches/esp32s3-light-sleep.patch:110-115 | overdue means at the tick or 2^47 ticks and more ahead |
| RtcClock.SwitchKeepsDistance | patches/esp32s3-light-sleep.patch:241-248 | after a switch of the clock source an armed alarm is as many ticks away as before, or overdue if its tick has passed |
| LightSleep.NoLostWakeup | patches/esp32s3-light-sleep.patch:38-92 | in every run of register writes, pin changes and time: a sleeping chip has no enabled wake source active, and the output lines follow the state |
| LightSleep.AlarmIsPunctual | patches/esp32s3-light-sleep.patch:94-119 | in every run the timer fires at or past the programmed tick, less than a period and a nanosecond late, sets the interrupt and wakes the chip |
| LightSleep.AlarmStarts | patches/esp32s3-light-sleep.patch:177-184 | a started alarm waits if and only if it is 1 to 2^47 - 1 ticks ahead |
| LightSleep.HalvesMakeTheAlarm | patches/esp32s3-light-sleep.patch:173-184 | the two register halves written, in either order, are the alarm |
| LightSleep.SwitchKeepsAlarm | patches/esp32s3-light-sleep.patch:241-248 | the tick count survives the switch; an alarm still ahead stays, one just reached fires |
| LightSleep.SleepSettles | patches/esp32s3-light-sleep.patch:66-85 | going to sleep leaves the chip asleep only if no enabled source is active |
| LightSleep.SleepersPinsAreInactive | patches/esp32s3-light-sleep.patch:28-64 | in every run: a chip asleep with EXT1 enabled has every selected pin at its inactive level, one asleep with the timer enabled has no alarm reported |
| LightSleep.PinWakesExactly | patches/esp32s3-light-sleep.patch:47-92 | in every run a pin change ends the sleep if and only if EXT1 is enabled, the pin selected and the level the active one; cause and status then name EXT1 and this pin alone |
| LightSleep.SleepRefusedExactly | patches/esp32s3-light-sleep.patch:66-85 | a request to sleep is refused if and only if refusals are on and a source selected for them is active, told by pin levels and the alarm bit |
| Esp32s3RtcDevice.Esp32s3Rtc.WakeUp | patches/esp32s3-light-sleep.patch:47-64 | the wake check in place |
| Esp32s3RtcDevice.Esp32s3Rtc.GoToSleep | patches/esp32s3-light-sleep.patch:66-85 | rejection or sleep, in place |
| Esp32s3RtcDevice.Esp32s3Rtc.ScheduleAlarm | patches/esp32s3-light-sleep.patch:103-119 | re-arming or firing the alarm, in place |
| Esp32s3RtcDevice.Esp32s3Rtc.WriteAlarmHigh | patches/esp32s3-light-sleep.patch:177-184 | the register write is the alarm step of the state machine, and keeps what every run keeps |
| Esp32s3RtcDevice.Esp32s3Rtc.WriteClockConf | patches/esp32s3-light-sleep.patch:241-248 | the register write is the clock-switch step, and keeps what every run keeps |
| Esp32s3RtcDevice.Esp32s3Rtc.GpioInput | patches/esp32s3-light-sleep.patch:87-92 | a pin change is the pin step, and keeps what every run keeps |
| Gram.CursorLaw | qemu/devices/co5300.c:238-250 | for any 16-bit window, bounds in either order, where no register wraps astray: after k pixels the cursor is at column x0 + k mod w and row y0 + (k div w) mod h, and every full pass over a window that shows is counted |
| Gram.PlacesKeptExactly | qemu/devices/co5300.c:238-241 | for any 16-bit window the position law holds for all k if and only if no register wraps to another place |
| Gram.WindowWritten | qemu/devices/co5300.c:229-251 | for the same windows: the pixels of the last pass stand in their cells, no cell outside the window changes, n div (w h) windows are counted |
| PanelProtocol.TransactionWrites | qemu/devices/co5300.c:196-283 | header, command and byte pairs of a write or continue transaction write exactly its pixels |
| PanelProtocol.CutsAreInvisible | qemu/devices/co5300.c:155-283 | a write cut between any pixels into any number of continue transactions leaves memory, cursor and count as one write does |
| PanelProtocol.TransactionMovesWindow | qemu/devices/co5300.c:196-216 | an address transaction moves that side of the window to the two 16-bit numbers sent, high byte first, when all four bytes came, and nothing else of the picture; further bytes are ignored |
| PanelProtocol.TransactionResets | qemu/devices/co5300.c:155-164 | a reset transaction opens the whole memory, puts the cursor at its start and keeps the memory |
| PanelProtocol.OthersChangeNothing | qemu/devices/co5300.c:155-253 | a transaction with any other command leaves the picture alone, whatever its data |
| Co5300Device.Co5300.TransferByte | qemu/devices/co5300.c:262-283 | one byte on the bus of a ready panel, on the array |
| Co5300Device.Co5300.PanelCommand | qemu/devices/co5300.c:155-194 | the command dispatch on the registers |
| Co5300Device.Co5300.PanelData | qemu/devices/co5300.c:196-253 | address bytes and pixel halves on the registers and the array |
| LinkSafety.RunKeeps | qemu/esp32s3/bluetooth/BleController.Link.cpp:39-157 | every interleaving of the two processes, the host's actions and transport loss keeps the link invariant |
| LinkSafety.SessionsAgree | src/bluetooth/VirtualPeer.cpp:154-277 | a generation the peer holds is the controller's or its end is on the way; one the controller is connected on is announced, held, or being closed; closing excludes connecting and holding |
| LinkSafety.ClosesAreAnswered | src/bluetooth/VirtualPeer.cpp:154-187 | a close of a known generation has its request or its confirmation on the way |
| LinkSafety.SessionDataStaysInSession | qemu/esp32s3/bluetooth/BleController.Link.cpp:53-126 | in each session each side has processed, in order, a prefix of what the other sent in it, and the rest is on the way |
| LinkCloses.UnnamedCloseUnderway | src/bluetooth/VirtualPeer.cpp:154-163 | in every run with the transport up: a close without a generation has a connection attempt or its answer on the way, until the peer has taken a rejection; a connection made meanwhile is announced on the way |
| LinkCloses.AttemptDecides | qemu/esp32s3/bluetooth/BleController.Link.cpp:69-92 | when the controller takes the attempt of such a close, it answers with a connection exactly if not connected, advertising, enabled and connectable; the peer then closes that connection by its generation; with nothing else on the way the close stalls exactly if the guard fails |
| LinkCloses.StalledStays | src/bluetooth/VirtualPeer.cpp:105-131 | a stalled close stays, with the controller unconnected, through every action but the setup deadline, a reset of the controller or the end of the transport |
| LinkCloses.UnnamedCloseCanStall | src/bluetooth/VirtualPeer.cpp:154-163 | a run that comes to such a close |
| LinkData.ControllerTakesData | qemu/esp32s3/bluetooth/BleController.Link.cpp:105-108 | data of the connection's generation goes to the host and nothing else happens: no answer, no change of the controller |
| LinkData.PeerTakesData | src/bluetooth/VirtualPeer.cpp:258-269 | data of the generation held goes to the upper layers and nothing else happens |
| LinkData.RefusedExactly | qemu/esp32s3/bluetooth/BleController.Link.cpp:60-122 | the controller refuses exactly the messages of another connection than its own, and requests for encryption that is up or under way; any other has its own effect |
| LinkData.RefusalHasReason | qemu/esp32s3/bluetooth/BleController.Link.cpp:60-122 | in every state, whoever acts: a refusal that names a generation enters the channel only as the answer to such a message |
| LinkData.SessionCarriesData | qemu/esp32s3/bluetooth/BleController.Link.cpp:105-108 | however sending and taking interleave in a session that carries only data, both ends stay as they are and every SDU is passed up once, in order |
| LinkData.SessionDrains | qemu/esp32s3/bluetooth/BleController.Link.cpp:105-108 | draining both channels passes all of it up and leaves both ends in the session, the peer not failed |
| LinkData.EncryptionBelongsToConnection | qemu/esp32s3/bluetooth/BleController.Link.cpp:109-122 | in every run encryption is asked for or up only on a connection, never both, and comes up only by a success for a key asked for on it, of which the peer is told |
| LinkData.SessionComesUp | src/bluetooth/VirtualPeer.cpp:165-322 | from rest, whatever happened before: firmware that advertises and publishes and a user who asks for a session bring both ends onto one new generation, with that advertisement and that catalog |
| LinkData.SessionGoesDown | src/bluetooth/VirtualPeer.cpp:154-218 | a user's disconnection brings both ends of a session back to rest with one exchange |
| LinkData.SessionKeepsCatalog | src/bluetooth/VirtualPeer.cpp:279-293 | in every run a session keeps the catalog and the advertisement it has: a change of either ends it |
| LinkData.DeadlineEndsSetup | src/bluetooth/VirtualPeer.cpp:79-129 | the setup deadline fails an attempt, an unready session or an unanswered close, clears the link, and drops the transport for the close; a ready session and an idle peer are left alone |
| LinkEnds.BleController.PeerMessage | qemu/esp32s3/bluetooth/BleController.Link.cpp:53-126 | the reaction to each message in place: new state, what is sent, and what is passed to the host (`LinkData` says what the reaction is) |
| LinkEnds.BleController.Disconnect | qemu/esp32s3/bluetooth/BleController.Link.cpp:142-157 | the link ends and the peer is told its generation |
| LinkEnds.BleController.ResetHci | qemu/esp32s3/bluetooth/BleController.Hci.cpp:32-49 | a reset disconnects first and then tells the peer |
| LinkEnds.VirtualPeer.Receive | src/bluetooth/VirtualPeer.cpp:189-277 | the reaction to each message in place: new state, what is sent, and what is passed to the upper layers |
| LinkEnds.VirtualPeer.Disconnect | src/bluetooth/VirtualPeer.cpp:154-163 | a close is requested once and clears the link |
| LinkEnds.VirtualPeer.TakeAdvertisement | src/bluetooth/VirtualPeer.cpp:279-293 | an advertisement updates availability and starts a wanted connection |
| FramingSafety.StreamsTellMessages | qemu/esp32s3/bluetooth/PeerSocket.cpp:161-178 | if the bytes of some messages begin the bytes of others, those messages begin the others |
| FramingSafety.FlushConserves | qemu/esp32s3/bluetooth/PeerSocket.cpp:104-128 | flushing moves bytes from the queue to the stream, losing none while the end is open |
| FramingSafety.ReceiveConserves | qemu/esp32s3/bluetooth/PeerSocket.cpp:130-159 | receiving moves bytes from the stream to messages, and takes none beyond the message it reads |
| FramingSafety.DeliveredInOrder | qemu/esp32s3/bluetooth/PeerSocket.cpp:104-178 | in every run, with any short reads, short writes, refusals and closings, the reader has a prefix of the messages sent |
| FramingSafety.NothingIsLost | qemu/esp32s3/bluetooth/PeerSocket.cpp:104-178 | when both ends are open and nothing is under way, every message has been delivered |
| FramingSafety.ReaderStaysInStep | qemu/esp32s3/bluetooth/PeerSocket.cpp:130-159 | the reader never rejects a length it was sent, holds a prefix of the next frame, and asks for no more than its buffer holds |
| PeerSocketObject.PeerSocket.Flush | qemu/esp32s3/bluetooth/PeerSocket.cpp:104-128 | the flushing loop, for every sequence of answers from the system |
| PeerSocketObject.PeerSocket.Receive | qemu/esp32s3/bluetooth/PeerSocket.cpp:130-159 | the receiving loop, for every sequence of answers |
| PeerSocketObject.PeerSocket.Send | qemu/esp32s3/bluetooth/PeerSocket.cpp:161-178 | queueing and flushing; a full queue closes the connection |
| HciQueue.CompletionComesFirst | qemu/esp32s3/bluetooth/BleController.Hci.cpp:75-111 | a command's completion is inserted behind what was queued before it and before what the command queued |
| HciSafety.QueueNeverFull | qemu/esp32s3/bluetooth/BleController.Link.cpp:39-51 | for a host within its credits, in every run, even with every delivery rejected, the queue holds at most 44 of 64 packets at every point, and neither the ACL nor the command credit check fails |
| HciSafety.CreditsCovered | qemu/esp32s3/bluetooth/BleController.cpp:291-297 | for such a host, its count of unanswered packets covers those still to be reported and the reports on their way |
| HciDelivery.AcceptedInOrder | qemu/esp32s3/bluetooth/BleController.cpp:254-266 | in every run with any host: the packets queued in a session are those accepted, in order, followed by those still queued, and a running callback holds the packet at the front |
| HciDelivery.OnlyAcceptedLeave | qemu/esp32s3/bluetooth/BleController.cpp:120-134 | in every run with any host: a packet leaves only when the host accepted that very packet; a callback that outlives a disable removes nothing |
| HciDelivery.CreditsBalance | qemu/esp32s3/bluetooth/BleController.cpp:291-297 | on every link of every run with any host: packets accepted are packets reported plus packets still to be reported |
| HciDelivery.HostMaySendAgain | qemu/esp32s3/bluetooth/BleController.cpp:276-290 | in every run with any host: a host that has sent may send again as soon as the worker polls with the callbacks registered, and a command not yet complete has its completion in the queue |
| HciDelivery.WorkerDelivers | qemu/esp32s3/bluetooth/BleController.cpp:276-311 | a polling worker offers the packet at the front unless it first has to tell the host that it may send; it rests only when no packet waits and no acknowledgement is owed |
| HciInbound.HostReadsTheLedger | qemu/esp32s3/bluetooth/BleController.Link.cpp:105-172 | in every run with any host: putting the queued packets together gives exactly the ledger kept from the inputs alone, with every well-formed SDU polled on the link that was up, whole, once and in order, among the links' beginnings and ends and the acknowledgements with their counts; the accepted packets give a beginning of it, and all of it once none waits |
| HciInbound.LedgerInOrder | qemu/esp32s3/bluetooth/BleController.Link.cpp:68-157 | in every run SDUs and acknowledgements of a link come behind its announcement and before its end, and no link is announced twice |
| BleTransportObject.BleTransport.Poll | qemu/esp32s3/bluetooth/BleController.cpp:276-311 | one poll of the worker in place |
| BleTransportObject.BleTransport.PollThePeer | qemu/esp32s3/bluetooth/BleController.Link.cpp:39-51 | the loop takes messages while the queue is short, then notices a lost peer |
| BleTransportObject.BleTransport.PeerMessage | qemu/esp32s3/bluetooth/BleController.Link.cpp:53-126 | what each message queues, in place (`HciInbound` says what a host reads from it) |
| BleTransportObject.BleTransport.ReceiveL2cap | qemu/esp32s3/bluetooth/BleController.Link.cpp:159-172 | the fragment loop queues exactly the fragments of the SDU |
| BleTransportObject.BleTransport.ReceiveReturned | qemu/esp32s3/bluetooth/BleController.cpp:254-266 | removal, retry or cancellation when the callback returns |
| BleTransportObject.BleTransport.Send | qemu/esp32s3/bluetooth/BleController.Hci.cpp:86-111 | the command step, its completion inserted by index |
| BleTransportObject.BleTransport.DisableController | qemu/esp32s3/bluetooth/BleController.cpp:120-134 | everything pending is dropped and a running callback marked |
| L2cap.CutSdu | qemu/esp32s3/bluetooth/BleController.Link.cpp:159-172 | the loop yields the fragments |
| L2cap.AtMostFive | qemu/esp32s3/bluetooth/BleController.Link.cpp:159-172 | an SDU of up to 1024 bytes takes at most five packets |
| L2cap.CutAndAssemble | qemu/esp32s3/bluetooth/BleController.Link.cpp:159-172 | a host that reassembles by boundary flags and length gets exactly the SDU, whatever it was in the middle of |
| L2cap.AnyCutAssembles | qemu/esp32s3/bluetooth/BleController.Link.cpp:174-202 | however a host within its credits cuts an SDU of 4 to 1024 bytes: the peer gets exactly that SDU and nothing stays behind, if and only if the first packet holds the whole header |
| L2cap.HeaderCutFails | qemu/esp32s3/bluetooth/BleController.Link.cpp:191 | a legal cut inside the header that ends the emulation |
| L2cap.LatePacketsChangeNothing | qemu/esp32s3/bluetooth/BleController.Link.cpp:180-182 | packets for a handle that is gone reach no SDU and take no credit |
| L2cap.AclReassembly.Take | qemu/esp32s3/bluetooth/BleController.Link.cpp:174-202 | the reassembly in place, with all its refusals |
| AttSafety.RequestsCompleteInOrder | src/bluetooth/VirtualPeer.Att.cpp:103-216 | in every run accepted requests complete exactly once and in order, at most one PDU is outstanding, no request's PDUs are interleaved, and the MTU stays in 23..498 |
| AttSafety.HistoryOnlyGrows | src/bluetooth/VirtualPeer.Att.cpp:103-216 | what has been accepted, sent or completed stays so |
| AttSafety.CallersAreTold | src/bluetooth/VirtualPeer.Att.cpp:40-66 | an event leaves a caller untold if and only if it is an MTU response with an unusable value |
| AttSafety.InvalidMtuResponseLosesCaller | src/bluetooth/VirtualPeer.Att.cpp:45-65 | a run in which it happens: a link, an exchange of 100, an answer of 22 |
| AttProgress.RequestsTakeBoundedPdus | src/bluetooth/VirtualPeer.Att.cpp:118-216 | in every run, whatever the server answers: a request takes at most two PDUs, a long write at most one for each 18 bytes begun, one to execute or cancel, and one more for late encryption |
| AttProgress.NothingStalls | src/bluetooth/VirtualPeer.Att.cpp:118-125 | in every run, on an open link with requests queued, the first is on its way or an encryption whose end sends it is being set up |
| AttProgress.FragmentsFitTheMtu | src/bluetooth/VirtualPeer.Att.cpp:31-38 | a fragment fills the PDU the MTU allows, unless it is the last, and never exceeds it |
| AttProgress.ExchangesAgreeOnTheSmaller | src/bluetooth/VirtualPeer.Att.cpp:40-66 | an exchange begun by either side ends with the smaller of the two limits offered |
| LongWrite.TilesSpell | src/bluetooth/VirtualPeer.Att.cpp:31-38 | fragments that continue one another from offset 0 are the value |
| LongWrite.NextPhase | src/bluetooth/VirtualPeer.Att.cpp:181-205 | an exact echo leads to the fragment that continues it or to the commit, anything else to the cancel |
| LongWrite.LongWritesAreAtomic | src/bluetooth/VirtualPeer.Att.cpp:82-216 | against any server, through MTU changes, encryption retries and lost links: only whole values are executed, each at the handle it was asked for and at most once, and an answered long write reports success if and only if it was executed |
| LongWrite.WritesReachTheHandle | src/bluetooth/VirtualPeer.Att.cpp:82-101 | a write is refused if and only if its value is over 512 bytes, there is no link or no room; else it asks for this value at this handle, as a long write if and only if it does not fit a PDU |
| AttAnswers.CallersGetTheAnswer | src/bluetooth/VirtualPeer.Att.cpp:158-216 | in every run against a server that grants, refuses or garbles: the server saw a plain request as it was asked, and an answered one reports the last answer to it, its error 0 if and only if granted, its value what the answer carried; an answered long write reports the fault of its last fragment or else the answer to its execution |
| AttClientObject.AttClient.Submit | src/bluetooth/VirtualPeer.Att.cpp:103-116 | a request is queued and sent, or refused, in place |
| AttClientObject.AttClient.WriteValue | src/bluetooth/VirtualPeer.Att.cpp:82-101 | a write goes out whole or as a long write |
| AttClientObject.AttClient.ReceiveAtt | src/bluetooth/VirtualPeer.Att.cpp:127-216 | every response, with re-entrant callbacks, in place: state, and the error and value each caller is given (`AttAnswers` says which) |
| AttClientObject.AttClient.ClearTheLink | src/bluetooth/VirtualPeer.cpp:173-187 | every queued request is completed with the link error |
| AttClientObject.AttClient.EncryptionReady | src/bluetooth/VirtualPeer.cpp:372-376 | the request that waited for encryption is sent again |
| GattBytes.UuidStringsIdentify | src/bluetooth/BleBytes.cpp:22-36 | two UUIDs print the same only if they are the same |
| Catalog.PublishDatabase | qemu/esp32s3/bluetooth/BleController.Gatt.cpp:60-99 | the publisher accepts exactly the lists with rising handles, present values and room, and serialises every attribute |
| Catalog.PublishedValue | qemu/esp32s3/bluetooth/BleController.Gatt.cpp:66-90 | the value of a declaration, with the next entry's handle for a characteristic |
| Catalog.SplitIntoChunks | qemu/esp32s3/bluetooth/BleController.Gatt.cpp:100-117 | the sending loop yields the chunks |
| Catalog.ChunksReassemble | src/bluetooth/VirtualPeer.Catalog.cpp:37-51 | from any receiver state the chunks give back the bytes, within the receiver's limit |
| Catalog.CatalogReceiver.TakeChunk | src/bluetooth/VirtualPeer.Catalog.cpp:37-48 | one chunk taken or refused, in place |
| Catalog.DecodeEncoded | src/bluetooth/VirtualPeer.Catalog.cpp:58-72 | decoding an encoded attribute recovers it and the bytes behind it |
| Catalog.TableDecodes | src/bluetooth/VirtualPeer.Catalog.cpp:58-72 | decoding a whole serialised table gives back the attribute list |
| Catalog.ParseCatalog | src/bluetooth/VirtualPeer.Catalog.cpp:53-106 | the parsing loop computes the parse (`CatalogAccess` says which access the tree has) |
| Catalog.ParseFollowsTree | src/bluetooth/VirtualPeer.Catalog.cpp:53-106 | parsing the serialised attributes builds the tree they describe, or refuses exactly when they do not describe one |
| Catalog.PublicationIsRecovered | src/bluetooth/VirtualPeer.Catalog.cpp:37-106 | for every accepted list: chunks and reassembly give its bytes, decoding them its attributes, and parsing the tree of those, with contiguous services; its access rules are those of `CatalogAccess.PublishedAccess` |
| Catalog.ServicesAreContiguous | src/bluetooth/VirtualPeer.Catalog.cpp:74-80 | the services tile the handles, the last ending at 0xFFFF |
| CatalogAccess.AccessIsThatOfTheAttributes | src/bluetooth/VirtualPeer.Catalog.cpp:82-105 | for every accepted list, stated on the list: each characteristic has permissions and key size of the attribute at its value handle, none if its declaration is followed by no such attribute, and each descriptor those of the attribute it stands for |
| CatalogAccess.PublishedAccess | src/bluetooth/VirtualPeer.Catalog.cpp:53-106 | from the firmware's list through the parsed bytes: a characteristic stands for an entry and the one behind it, and has that entry's handle, UUID, permissions and key size |
| CatalogAccess.AccessRefusedExactly | src/bluetooth/VirtualPeer.Catalog.cpp:91-104 | a list is accepted if and only if it is accepted without its access rules, no value or descriptor has a restricted bit, and no value asks for a key over 16 bytes |
| CatalogAccess.RestrictedBits | src/bluetooth/VirtualPeer.Catalog.cpp:94-103 | the restricted bits are 3, 4, 6 and 7 |
| Discovery.TakeList | src/bluetooth/VirtualPeer.Discovery.cpp:44-63 | the loop over a response's entries, for the three kinds of list |
| Discovery.Search | src/bluetooth/VirtualPeer.Discovery.cpp:34-162 | a search ends, after at most one request for each handle of its range, against any answers |
| Discovery.SearchInRange | src/bluetooth/VirtualPeer.Discovery.cpp:34-162 | what a search accepts is in order, disjoint and within its range, against any answers |
| Discovery.DiscoveryIsWellFormed | src/bluetooth/VirtualPeer.Discovery.cpp:34-162 | against any answers, discovery fails or gives disjoint sorted services, characteristics inside their service, and descriptors between a value and the next declaration |
| ConformingServer.VisiblePast | src/bluetooth/VirtualPeer.Discovery.cpp:60-64 | asking again just past the last item reported shows exactly the remaining items |
| ConformingServer.TakesAll | src/bluetooth/VirtualPeer.Discovery.cpp:48-61 | the client takes every entry of a truthful list, in order |
| ConformingServer.SearchFindsAll | src/bluetooth/VirtualPeer.Discovery.cpp:34-162 | however a truthful server cuts its responses, a search finds exactly what its range shows |
| DiscoveryFinds.DiscoveryFindsAll | src/bluetooth/VirtualPeer.Discovery.cpp:34-162 | discovery against a truthful server finds its whole table, each thing in its place |
| TreeRelation.TreeRelated | src/bluetooth/VirtualPeer.Catalog.cpp:74-105 | attribute by attribute, the parsed tree and the lists a server reports describe the same services, characteristics and descriptors |
| DiscoveryAgrees.TableFits | src/bluetooth/VirtualPeer.Catalog.cpp:74-105 | a table the parser accepts keeps every search within the client's limits and ranges |
| DiscoveryAgrees.EndsAgreeWithoutGaps | src/bluetooth/VirtualPeer.Catalog.cpp:74-80 | catalog and server agree on where every service ends if and only if no handle is skipped before a service |
| DiscoveryAgrees.DiscoveryReproducesCatalog | src/bluetooth/VirtualPeer.Discovery.cpp:34-201 | against every truthful server discovery succeeds, and finds the published tree if and only if no handle is skipped before a service |
| DiscoveryComplete.CompleteDiscovery | src/bluetooth/VirtualPeer.Discovery.cpp:178-198 | copying the permissions over and comparing releases the session exactly when the trees agree in all that discovery can see |
| DiscoveryComplete.PublishedIsDiscovered | src/bluetooth/VirtualPeer.Discovery.cpp:164-201 | from the firmware's list: publication gives its tree, discovery succeeds, and the comparison succeeds if and only if no handle is skipped before a service |
| DiscoveryComplete.TruthfulServerExists | src/bluetooth/VirtualPeer.Discovery.cpp:34-162 | every sorted table has a truthful server, so the statements above are about servers that exist |
| DiscoveryComplete.GapIsRefused | src/bluetooth/VirtualPeer.Discovery.cpp:196-198 | a table and a truthful server for which the session is refused |

## Left out

- Sockets, timers, threads and MMIO dispatch: a socket is a byte stream with arbitrary answers, a timer an armed deadline that is served when time reaches it, a register write a call.
- Civil calendar: `gmtime_r` and `mktimegm` are not part of the repository; the model uses the Gregorian calendar from 1970 and proves its counting form and its closed form equal.
- RX8130CE: interrupt frequencies, RAM registers and time before 1970.
- I2C: FIFO resets, FSM reset, interrupt clearing, watermark bits and the RAM window, all of which can disturb a paused transaction; an overflowing write is modelled as lost.
- SPI: command and address phases, the register FIFO and chip selects; memory that answers reads takes writes, and nothing answers past the 32-bit address space.
- SpiDma.ReadsStream: hand-backs that write into a buffer still to be read, or into another descriptor, are outside its statement; such reads are still covered by SpiDma.ReadSplits.
- Panel: power, reset recovery times, brightness, tearing signal and the update counter; transfers are those of a ready panel. A write cut between the two bytes of a pixel drops the first byte, as the program does.
- RTC controller: CPU stall registers, reset causes and the system timer's pause during sleep; the slow clock's frequency is any up to a gigahertz.
- HCI: contents of events, the 12-bit wrap of connection handles (handles are taken as fresh, so no handle returns while an event of its predecessor is queued), and commands that change only local settings, which queue at most their completion. Where a failed check ends the emulation, the runs of `HciDelivery` go on, so its statements cover those runs as well.
- HciSafety.QueueNeverFull: is about hosts that send only on handles they have learned, within 12 unanswered packets, and one command at a time.
- ATT: reads, notifications and timeouts queue nothing of their own beyond the modelled requests; SMP cryptography is reduced to whether encryption succeeds.
- LongWrite.LongWritesAreAtomic: a long write whose link is lost reports failure whether or not the server had already executed it; no client could know.
- Catalog: reading the attribute list out of guest memory; the model starts from the decoded list. Log output and the change notification after a publication are left out.
- DiscoveryAgrees.DiscoveryReproducesCatalog: include declarations come before the characteristics of their service, as section 3.2 of Volume 3, Part G of the Bluetooth Core specification demands, and no characteristic has a declaration's UUID.
- ConformingServer.SearchFindsAll: the server reports the last primary service as ending at 0xFFFF.
- AttAnswers.CallersGetTheAnswer: leaves out requests with opcode 0, which is no ATT request: the response to it would read as an error.
- LinkData: SDUs on the link have the length their header announces, as the peer builds them (the check is in `L2cap.SduOk` and `HciQueue`), and other payloads are well formed.
- Clearing of subscriptions after discovery: a sequence of plain writes.
- Framing: the payload's meaning; a message is a body of 9 to 1033 bytes.
- Hook tables, audio, motion, touch, GPIO matrix and power controller models, CoreBluetooth, and the application and user interface.
