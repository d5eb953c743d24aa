# Verified models of the creature controller

This project models the parts of the creature controller where a mistake moves metal, loses data or garbles sound,
and proves what they promise. `dafny verify dfyconfig.toml` checks all of it.

## What is modelled

**Energizing Dynamixel servos** (`TorqueState`, `TorqueSafety`, `TorqueRecovery`, `TorqueTask`, `TorqueRun`). The
firmware decides which servos may hold torque from a shared motor map, a one-slot torque request, a rail flag with
hysteresis, a pending re-init flag, a first-frame flag and the emergency stop. Class `TorqueTask.Firmware` does what
the controller's functions do, one register access at a time, against simulated servos whose velocity, torque and
light registers are lost with the power. Between any two accesses any sequence of events may happen: voltage samples
and the re-init requests that follow them, accepted frames, disconnects, torque requests, position requests, the
emergency stop. What happens and whether a register access lands, is acknowledged or is answered is fixed in advance
by arbitrary functions, so every claim holds for all of them; claims about what is achieved when nothing is in the way
look only at the steps taken meanwhile. `TorqueState.Invariant` is what survives every interleaving: whenever the rail
is up, no re-init is pending or about to be requested and the servo task is not between clearing the re-init flag and
clearing the confirmed flags, every servo marked confirmed holds its stored profile velocity. `TorqueState.Safe` is
what it buys over whole histories: every servo ever energized was energized by a pass that had found the emergency
stop clear, and either itself told to run and a first frame received or an explicit ENABLE request; and it stood at
its stored speed, or a re-init was pending, or one had yet to be requested. `TorqueRun.IsRun` ties the history to the
jobs done and the events that happened. What must happen is proved beside what must not: a disconnect leaves the
servos limp (`TorqueRun.DisconnectReleases`), a pending re-init is carried out (`TorqueRun.RunRecovers`), an ENABLE
request is served (`TorqueRun.RunEnables`), and one servo that does not answer leaves the others none the worse
(`TorqueTask.Firmware.SetTorqueAll`, `TorqueTask.Firmware.ReinitializeAll`).

**The Dynamixel bus** (`Crc`, `DxlProtocol`, `DxlScanner`, `DxlServo`). The table CRC against the polynomial it stands
for, the byte-stuffing printer and parser, the scan for packets in noisy bytes, broadcast positions and collected
status reports. `DxlProtocol.Encode`, `Parse` and `DxlScanner.Receive` are the specifications; the array-filling
routines are proved against them.

**The power-on hours odometer** (`HoursRecord`, `Odometer`). Records with a CRC in a ring of sixteen slots, written
through pages, restored at boot. `Odometer.Records` says what the EEPROM holds after any number of persists, reboots
and power failures, and `Odometer.Continues` what the counters then are; `Odometer.Becomes` says what each of these
happenings adds to the past.

**RTP and RTCP** (`RtcpWire`, `RtcpPacket`, `RtcpTiming`, `ReportCache`, `JitterBuffer`). The compound packet parser of
sections 6.1, 6.4.1 and 6.5 of RFC 3550 against the written form of such packets, in both directions; nanosecond
arithmetic on wrapping timestamps; the report cache and the jitter buffer against the history of what was put in.

**The audio output ring** (`OutputRing`). Writer and device callback cut into single-sample steps that interleave
freely over one array; `OutputRing.AfterAll` is the plain queue they must look like.

**On the host** (`Watchdog`, `SerialFraming`, `HeadMixing`). Watchdog episodes against the history of samples, serial
lines against the byte stream, and mixed head positions against the range of the servos.

`Bytes`, `BigEndian`, `Division`, `Options` and `Sequences` hold fixed-width integers, big-endian words, truncating
division, optional values and facts about cutting sequences.

## What the proofs found

Some things the code is for hold only under a condition; each is proved to hold exactly then.

- A status packet whose error byte and first two parameters are FF FF FD does not parse back, because the printer
  counts the error byte among the stuffed parameters and the parser does not (`DxlProtocol.StatusRoundTrip`).
- A second header can occur inside a packet for one shape only, with an instruction byte the protocol does not use
  (`DxlProtocol.HeaderOnlyAtStart`).
- A sample that finds the rail restored raises the rail flag before it requests the re-init (lines 1270 and 1277 of
  controller.c, without a lock). In between a servo reset by the outage passes for confirmed, and can be energized at
  its power-up speed (`TorqueSafety.RestoreWindow`); that and the like are the only ways
  (`TorqueSafety.OffSpeedExactly`, `TorqueSafety.EnergizedOffSpeed`), and the re-init is what the sample requests next.
- The transfer that collects status responses is exactly as long as the unstuffed responses. Any noise byte or
  stuffed byte before the last response cuts it off, and its servo is reported offline (`DxlServo.AllHeardExactly`,
  `DxlServo.NoiseByteSilences`).
- After a write cut short, boot goes back to the record before exactly when the slot is left invalid, or numbered
  lower, or numbered the same outside slot 0 (`Odometer.BootAfterTornWrite`); a wrapped sequence number would lose
  the newest record (`Odometer.WrappedNumberLost`).
- A record cut short over an older one is invalid unless both have the same CRC up to the cut
  (`HoursRecord.CutShortExactly`).
- Frames are a nanosecond short of 10 ms apart when they straddle the sender report's timestamp at a distance that is
  not a multiple of three samples (`RtcpTiming.FrameSpacing`).
- Whether two reports' clocks are compatible can depend on their order when their RTP timestamps are exactly half
  the range apart (`RtcpTiming.CompatibleAtHalf`, `RtcpTiming.OrderMatters`).
- A clear of the output ring while a render is under way, which happens when the audio device does not stop, is undone
  by that render (`OutputRing.ClearWhileRendering`).
- A timestamp that was taken or discarded and is pushed again in the same generation takes the place of the first
  entry it has left in the jitter buffer's order, which may not be the last (`JitterBuffer.PushedPlace`); without such
  a push the buffer is a plain list (`JitterBuffer.Run`).
- A head offset under two lets the mixed position leave the range by one, which wraps at zero, and a wide range can
  overflow the 32-bit product (`HeadMixing.MixedInRange`, `HeadMixing.OverflowExactly`).

## Assumptions

- CONFIG handling runs between passes of the servo task, as the comment at
  firmware/src/controller/controller.c:639-644 says. The code itself enforces less: the torque request at lines
  1153-1167 is serviced whether or not the controller is safe to run.
- Servos lose their registers exactly when the sample that finds the rail lost arrives, or when an accepted frame
  powers the motor rails and sags the supply. The rail flag lags the supply by a sampling period, so a register write
  may land, and a read may be answered, whatever the flag says. A write lands when it is made or not at all, and a
  read that succeeds tells the truth.
- An accepted frame sets its flag before its handler requests the re-init (lines 459-480), and a sample that finds the
  rail restored does likewise (lines 1270-1277); in between the re-init counts as about to be requested. The
  emergency stop only goes from clear to set.
- Code that holds a lock is one step.

## Model

| member | source | states |
|---|---|---|
| `TorqueRun.Run` | firmware/src/controller/controller.c:1133-1243 | over any run of passes, CONFIG handling, events and bus outcomes: every servo marked confirmed holds its stored velocity (at most 267) whenever the rail is up and no re-init is due or about to be requested; the history is safe, its events are exactly those of the steps taken, its passes those of the jobs, the map the one configured, and every servo that gained torque is noted |
| `TorqueRun.RunAddsUp` | firmware/src/controller/controller.c:1133-1243 | stage by stage, the passes counted, the motor map and the notes of torque agree with the jobs done |
| `TorqueRun.DisconnectReleases` | firmware/src/controller/controller.c:430-446 | after a disconnect the next pass finds its release request taken, by itself or a job before it, and every job so far that took it or a later one with nothing in its way has left all its servos limp; they stay so until the next accepted frame, unless ENABLE is requested |
| `TorqueRun.PassReleases` | firmware/src/controller/controller.c:1146-1167 | a pass that takes a request once the frame is forgotten, with nothing in its way, leaves every servo of its map limp until the next accepted frame or ENABLE request, whatever else happens |
| `TorqueRun.TakingReleases` | firmware/src/controller/controller.c:430-446 | the same for any job that takes a request, if the frame was forgotten before, or if the firmware was told to stop before and not told to run again until the frame was forgotten |
| `TorqueRun.TakenInJob` | firmware/src/controller/controller.c:1153-1155 | no later than the first pass that begins after it, a torque request is taken by some job of the run |
| `TorqueRun.DoPass` | firmware/src/controller/controller.c:1146-1207 | a pass, with whatever happens before it: one more pass in the history, pending requests taken, a re-init kept unless the task finds itself told to run; with nothing in the way a release taken leaves the map released, and a pending re-init is carried out if the task is told to run throughout |
| `TorqueRun.DoConfigure` | firmware/src/controller/controller.c:790-874 | CONFIG handling, with whatever happens before it: with nothing in its way an entry accepted for a servo on the bus is written, confirmed and lit at the speed asked for, at most 267; a pending re-init stays pending |
| `TorqueRun.DoReset` | firmware/src/controller/controller.c:630-676 | a reset of the map, with whatever happens before it: with nothing in its way every servo of the old map is released and dark; a pending re-init stays pending |
| `TorqueRun.RunRecovers` | firmware/src/controller/controller.c:1197-1207 | a re-init pending at some stage of a run is carried out by the first pass that is told to run throughout, if nothing is in its way: every servo of its map is confirmed, at its stored velocity and lit, with torque unless the stop is raised or no frame is held |
| `TorqueRun.RunEnables` | firmware/src/controller/controller.c:1153-1165 | a pass that finds an ENABLE request not taken or countermanded, with nothing in its way, leaves exactly the confirmed servos with torque or every servo set up again, unless the stop is raised or a re-init is pending |
| `TorqueSafety.RestoreWindow` | firmware/src/controller/controller.c:1268-1278 | after a lost and a restored rail, before the sample that found it restored has requested the re-init, every flag looks settled while a confirmed servo is off its stored speed, and a torque write landing then energizes it so; the request follows |
| `TorqueSafety.OffSpeedExactly` | firmware/src/controller/controller.c:1061-1130 | the invariant admits a servo marked confirmed off its stored speed exactly while the rail flag is down, a re-init is pending or about to be requested, or the confirmed flags are about to be cleared |
| `TorqueSafety.OffSpeedReached` | firmware/src/controller/controller.c:1260-1280 | each of these is reached, one after another, from any settled state with a confirmed servo: by losing the rail, restoring it, requesting the re-init and taking it up, or by a frame that sags the supply |
| `TorqueSafety.EnergizedOffSpeed` | firmware/src/controller/controller.c:1268-1278 | a servo energized off its stored speed with no re-init pending was energized with the rail flag down, or between the two writes of a sample that found the rail restored from being down or of a handler that accepted a frame |
| `TorqueSafety.InFlightExactly` | firmware/src/controller/controller.c:1268-1278 | a re-init counts as about to be requested exactly while some such sample or handler has made its first write and not its second |
| `TorqueSafety.NotEnergizedOnceTaken` | firmware/src/controller/controller.c:1153-1207 | once a request has been taken nothing is energized before the next accepted frame without ENABLE, if the frame had been forgotten, or was forgotten later with the firmware told to stop before and not to run in between |
| `TorqueSafety.NotEnergizedUntilNextFrame` | firmware/src/controller/controller.c:430-446 | in a safe history with no ENABLE request, a servo energized in a pass that began after a disconnect was preceded by a newly accepted frame |
| `TorqueSafety.NotEnergizedUntilRunning` | firmware/src/controller/controller.c:1197-1207 | in a safe history with no ENABLE request, once the task has been told to stop and then takes a request it energizes nothing, not even in that pass, before it is told to run again |
| `TorqueSafety.NeverEnergizedAfterEstop` | firmware/src/controller/controller.c:1114-1121 | in a safe history, a servo energized after the emergency stop was raised was energized by a pass that had begun before |
| `TorqueState.RequestKept` | firmware/src/controller/controller.c:908-911 | a torque request stays in its slot until the task takes one |
| `TorqueState.RequestedExactly` | firmware/src/controller/controller.c:876-906 | the position stored is the one asked for if it is within the limits of the servo named, and nothing else changes |
| `TorqueState.EffectGood` | firmware/src/controller/controller.c:459-488 | no event of another task breaks the invariant, and each is one the Dynamixel task tolerates between any two steps |
| `TorqueState.LandedGood` | firmware/src/dynamixel/dynamixel_servo.c:103-120 | a register write the task may make keeps the invariant wherever it lands |
| `TorqueState.AllowedKept` | firmware/src/controller/controller.c:695-738 | a write that may be made may still be made later in the same pass, whatever happened in between |
| `TorqueState.MarkedGood` | firmware/src/controller/controller.c:776-788 | marking a servo confirmed keeps the invariant once its stored velocity was read back from it and nothing has announced its loss since |
| `TorqueState.HoldingKept` | firmware/src/controller/controller.c:695-738 | a register value read back stays, unless the rail is lost or a re-init becomes due |
| `TorqueState.SweepStep` | firmware/src/controller/controller.c:948-969 | after driving one more servo all those driven so far hold the torque setting wanted of them |
| `TorqueState.FrameAfterForgetting` | firmware/src/controller/controller.c:459-488 | when the history says a frame has been seen, a frame was accepted after the last disconnect |
| `TorqueRecovery.RestoringMarks` | firmware/src/controller/controller.c:1089-1090 | during re-initialisation a read-back velocity may be recorded as confirmed |
| `TorqueRecovery.RestoredStep` | firmware/src/controller/controller.c:1088-1101 | with nothing in the way, one more servo has its velocity written, is marked confirmed, and is lit |
| `TorqueRecovery.FrameFound` | firmware/src/controller/controller.c:1120-1130 | finding the emergency stop clear and a first frame received in this pass makes it a pass that may energize |
| `TorqueRecovery.ConfiguredGood` | firmware/src/controller/controller.c:828-840 | a new motor-map entry keeps ids distinct, velocities within the limit, and positions in range unless min plus max overflows 32 bits |
| `TorqueRecovery.ConfiguredExactly` | firmware/src/controller/controller.c:828-840 | a new entry has the limits given, starts at half the 32-bit sum of them, and has the speed asked for or 267 if that is less; the entries before it stay |
| `TorqueTask.Firmware.MotorPowerSample` | firmware/src/controller/controller.c:1260-1271 | the rail flag follows the voltage with hysteresis, a lost rail resets every servo, and a restored one leaves its re-init to be requested |
| `TorqueTask.Firmware.RequestDynamixelPosition` | firmware/src/controller/controller.c:876-906 | a position is taken by the servo named exactly when it is configured and the position is within its limits |
| `TorqueTask.Firmware.Happen` | firmware/src/controller/controller.c:459-488 | each event writes exactly the shared flag, request, register or position it stands for |
| `TorqueTask.Firmware.Interfere` | firmware/src/controller/controller.c:1133-1143 | between two steps exactly the events of that step happen, in order; that keeps the invariant and energizes nothing |
| `TorqueTask.Firmware.WriteRegister` | firmware/src/dynamixel/dynamixel_servo.c:103-120 | a write changes one register of one servo if it lands, whatever the rail flag says, and nothing otherwise |
| `TorqueTask.Firmware.ReadRegister` | firmware/src/dynamixel/dynamixel_servo.c:75-101 | a read that succeeds returns the register |
| `TorqueTask.Firmware.ApplyRegister` | firmware/src/controller/controller.c:695-738 | success means the value was read back and still holds unless its loss has been announced, and takes an answer; failure means that the rail is down or that three steps went wrong; with nothing in the way meanwhile it succeeds at the first attempt |
| `TorqueTask.Firmware.DriveOne` | firmware/src/controller/controller.c:948-969 | an unconfirmed servo is driven torque-off even when torque is wanted, and each servo is counted once |
| `TorqueTask.Firmware.SetTorqueAll` | firmware/src/controller/controller.c:915-994 | counts add up to the motor map; when none failed every servo holds its torque setting; each failure takes three steps that went wrong, unless the rail was found lost; with the rail down nothing is done; releasing energizes nothing |
| `TorqueTask.Firmware.MarkVelocityConfirmed` | firmware/src/controller/controller.c:776-788 | exactly the servo named is marked |
| `TorqueTask.Firmware.ConfirmVelocity` | firmware/src/controller/controller.c:1088-1090 | a servo is marked confirmed exactly when its stored velocity was read back, which fails only with the rail found lost or after three steps that went wrong; no other mark changes |
| `TorqueTask.Firmware.RestoreSettings` | firmware/src/controller/controller.c:1075-1101 | every flag is cleared and none is set again without an answer from the bus; unless the rail was found lost, each servo left unconfirmed takes three steps that went wrong; with nothing in the way meanwhile all end up confirmed, at speed and lit |
| `TorqueTask.Firmware.ApplySettings` | firmware/src/controller/controller.c:1088-1101 | velocity, mark and light of one servo: the light shows the outcome unless it is known not to have been set |
| `TorqueTask.Firmware.RestoreAll` | firmware/src/controller/controller.c:1083-1110 | a servo that cannot be set up does not stop the others: those confirmed are counted, and each of the others takes three steps that went wrong |
| `TorqueTask.Firmware.MayEnergize` | firmware/src/controller/controller.c:1120-1128 | torque may come back only if the emergency stop was clear and a frame had been received; refused only while one of these fails |
| `TorqueTask.Firmware.ReinitializeAll` | firmware/src/controller/controller.c:1061-1131 | ends the span of out-of-date flags; with nothing in the way every servo is confirmed at its stored velocity, lit, and energized exactly if allowed; otherwise, unless the rail was found lost, each servo left unconfirmed takes three steps that went wrong |
| `TorqueTask.Firmware.ServiceEnable` | firmware/src/controller/controller.c:1157-1165 | ENABLE is ignored under emergency stop and left to a pending re-init; otherwise it drives exactly the confirmed servos |
| `TorqueTask.Firmware.ServiceRequest` | firmware/src/controller/controller.c:1153-1167 | when the bus answers, DISABLE releases every servo and ENABLE leaves exactly the confirmed ones with torque unless it must not be; a pending re-init is never lost |
| `TorqueTask.Firmware.Recover` | firmware/src/controller/controller.c:1197-1207 | a pending re-init is carried out when the task may run and nothing is in the way, and kept otherwise |
| `TorqueTask.Firmware.TaskPass` | firmware/src/controller/controller.c:1146-1207 | one pass keeps the invariant; a request pending at its start is taken; with nothing in the way meanwhile a release taken leaves every servo released unless it was energized later in the pass, an ENABLE request is served, and a re-init pending at the start is carried out if the task is told to run throughout: everything confirmed, at speed, lit, and with torque if allowed; otherwise it stays pending |
| `TorqueTask.Firmware.AddMotor` | firmware/src/controller/controller.c:796-840 | accepted exactly for an id from 1 to 253 not yet configured with room left; velocity clamped to 267; position centred modulo 2^32 |
| `TorqueTask.Firmware.ConfigureDynamixelServo` | firmware/src/controller/controller.c:790-874 | a refused entry changes nothing; other tasks run before the rail is looked at; with it up and the bus answering the settings are written and confirmed, with it down a re-init is requested; no servo gains torque without a note, and no request is taken |
| `TorqueTask.Firmware.ResetDynamixelMotorMap` | firmware/src/controller/controller.c:630-676 | the request is dropped and the map ends up empty; with nothing in the way every servo it held has been released and darkened first |
| `Crc.EntryIsSerial` | firmware/src/dynamixel/dynamixel_protocol.c:9-29 | every entry of the lookup table is the bit-serial CRC of its index |
| `Crc.TableStepIsFeed` | firmware/src/dynamixel/dynamixel_protocol.c:31-38 | one table step equals eight bit steps of the polynomial 0x8005 division |
| `Crc.DxlCrc16` | firmware/src/dynamixel/dynamixel_protocol.c:31-38 | the table-driven CRC equals the bit-serial one on every message |
| `Crc.FeedWordInjective` | firmware/src/dynamixel/dynamixel_protocol.c:31-38 | two different byte pairs never lead from the same register to the same register |
| `Crc.PairDamageDetected` | firmware/src/dynamixel/dynamixel_protocol.c:128-135 | messages that differ only in one byte or two neighbouring bytes never share a CRC |
| `Crc.HoursCrc16` | firmware/src/device/eeprom_hours.c:18-27 | the bit loop computes the bit-serial CRC with polynomial 0x1021 and start value 0xFFFF |
| `Crc.HoursKnown` | firmware/src/device/eeprom_hours.c:18-27 | two bytes of ones cancel the start value 0xFFFF, and a following 1 leaves the polynomial 0x1021 |
| `DxlProtocol.RoundTrip` | firmware/src/dynamixel/dynamixel_protocol.c:40-189 | any built packet but a status packet parses back to the same id, instruction and parameters, and trailing bytes are ignored |
| `DxlProtocol.StatusRoundTrip` | firmware/src/dynamixel/dynamixel_protocol.c:40-189 | a status packet parses back to its error byte and parameters exactly when the error byte does not complete FF FF FD |
| `DxlProtocol.EncodedFields` | firmware/src/dynamixel/dynamixel_protocol.c:50-68 | stuffing adds at most a third, and the length field, stuffed parameters and CRC lie where the parser looks for them |
| `DxlProtocol.StuffGrowth` | firmware/src/dynamixel/dynamixel_protocol.c:50-68 | stuffing never shrinks and adds at most one byte for three |
| `DxlProtocol.HeaderOnlyAtStart` | firmware/src/dynamixel/dynamixel_protocol.c:40-105 | before the CRC the header pattern occurs only at byte 0, except for instruction 0xFF followed by FF FD 00 |
| `DxlProtocol.DamageDetected` | firmware/src/dynamixel/dynamixel_protocol.c:128-135 | changing the id, the instruction, or one or two neighbouring bytes from the instruction to the last parameter, always breaks the CRC check |
| `DxlProtocol.DamageRejected` | firmware/src/dynamixel/dynamixel_protocol.c:128-135 | the parser reports such a packet as a CRC mismatch |
| `DxlProtocol.ErrorByteOf` | firmware/src/dynamixel/dynamixel_protocol.c:128-189 | a CRC mismatch is reported exactly for an intact frame whose CRC does not hold, and a servo error exactly for a good status packet with a non-zero byte after the instruction |
| `DxlProtocol.StuffedSize` | firmware/src/dynamixel/dynamixel_protocol.c:50-58 | the sizing pass computes the stuffed length |
| `DxlProtocol.WriteParams` | firmware/src/dynamixel/dynamixel_protocol.c:88-96 | the writing pass puts exactly the stuffed parameters after the head and touches nothing else |
| `DxlProtocol.BuildPacket` | firmware/src/dynamixel/dynamixel_protocol.c:40-105 | the buffer receives exactly the encoding, or is left alone when it does not fit |
| `DxlProtocol.UnstuffParams` | firmware/src/dynamixel/dynamixel_protocol.c:143-181 | the unstuffing loop computes the specified parameters, or reports the full buffer |
| `DxlProtocol.ParsePacket` | firmware/src/dynamixel/dynamixel_protocol.c:107-189 | result code and packet are those of the specified parser, on every buffer |
| `DxlScanner.StreamRecovered` | firmware/src/dynamixel/dynamixel_hal.c:662-689 | over any alternation of header-free noise and packet images, and then any bytes without a complete one, the pass delivers exactly the good ones in order up to the number expected, and counts bad CRCs and skipped noise exactly |
| `DxlScanner.StreamCounted` | firmware/src/dynamixel/dynamixel_hal.c:662-689 | over such a stream the pass takes the first n images, all of them or just enough to deliver the number expected; the noise counted is what lies before these, the CRC errors are those of these whose CRC fails, the servo errors the good ones with an error byte |
| `DxlScanner.ReceiveCounted` | firmware/src/dynamixel/dynamixel_hal.c:662-689 | on any bytes at all, packets and the three counts are those of the images taken and of the bytes passed over before each |
| `DxlScanner.NoStraddling` | firmware/src/dynamixel/dynamixel_hal.c:184-199 | no header begins in header-free noise before a packet: the pattern has no self-overlap |
| `DxlScanner.CutRecovered` | firmware/src/dynamixel/dynamixel_hal.c:587-593 | a transfer of limited size delivers what the packets that arrive whole bring, with any header-free noise, and nothing of the one cut off |
| `DxlScanner.WholeExactly` | firmware/src/dynamixel/dynamixel_hal.c:532-533 | a packet arrives whole exactly when it ends within the size of the transfer |
| `DxlScanner.ResponsesReceived` | firmware/src/dynamixel/dynamixel_hal.c:662-689 | status packets sent with any header-free noise between them are received unchanged, as many as arrive whole |
| `DxlScanner.NothingInvented` | firmware/src/dynamixel/dynamixel_hal.c:662-689 | on any bytes at all, every packet delivered is what parses at a header in the stream |
| `DxlScanner.ReceiveBounded` | firmware/src/dynamixel/dynamixel_hal.c:662-689 | never more packets than expected, nor more noise than bytes |
| `DxlScanner.FindPacketHeader` | firmware/src/dynamixel/dynamixel_hal.c:184-199 | finds the first header whose announced packet fits, or none exactly when there is none |
| `DxlScanner.Metrics.ParseNext` | firmware/src/dynamixel/dynamixel_hal.c:665-688 | one turn always moves forward and leaves exactly the rest of the pass to do |
| `DxlScanner.Metrics.ParseAll` | firmware/src/dynamixel/dynamixel_hal.c:658-689 | packets and counters end up as the specified pass says |
| `DxlScanner.Metrics.ReceiveMulti` | firmware/src/dynamixel/dynamixel_hal.c:516-699 | of the reply, only as many bytes are looked at as unstuffed responses would have; packets and counters are those of the specified pass over them; a pass without packets is a timeout, and a transfer too big for the buffer is refused |
| `DxlServo.SyncWriteDelivers` | firmware/src/dynamixel/dynamixel_servo.c:198-242 | up to 16 positions always fit 256 bytes, and parsing the packet and reading five-byte records gives the same list back |
| `DxlServo.SyncWriteBytes` | firmware/src/dynamixel/dynamixel_servo.c:198-242 | register 116, size 4, and then for each servo its id and four bytes, least significant first |
| `DxlServo.SyncWritePosition` | firmware/src/dynamixel/dynamixel_servo.c:198-242 | the transmit buffer receives that packet; an empty or too long list is refused |
| `DxlServo.RegisterRoundTrip` | firmware/src/dynamixel/dynamixel_servo.c:75-120 | a value that fits its register reads back as written, least significant byte first |
| `DxlServo.WriteRegisterParams` | firmware/src/dynamixel/dynamixel_servo.c:103-120 | address and value are laid out least significant byte first |
| `DxlServo.ReadRegisterValue` | firmware/src/dynamixel/dynamixel_servo.c:75-101 | the value is read from as many parameters as there are, up to the length |
| `DxlServo.SyncReadExact` | firmware/src/dynamixel/dynamixel_servo.c:312-341 | with distinct ids a servo is valid exactly when some response of its own had at least 21 parameters, with the reading and error byte of the first such one |
| `DxlServo.SyncReadShort` | firmware/src/dynamixel/dynamixel_servo.c:312-341 | a servo whose responses were all short is reported invalid, with the error byte of the last of them |
| `DxlServo.DecodedBytes` | firmware/src/dynamixel/dynamixel_servo.c:320-334 | the bytes of each reading: load from 0 and 1 and position from 6 to 9, both signed, voltage from 18 and 19, temperature from 20 |
| `DxlServo.MatchResponses` | firmware/src/dynamixel/dynamixel_servo.c:312-351 | the result array is filled as specified, and the count is the number of valid entries |
| `DxlServo.TelemetryEndToEnd` | firmware/src/dynamixel/dynamixel_hal.c:532-593 | of servos that all answer in full, in any header-free noise, one is reported valid, with what it sent, exactly when its packet ends within 32 bytes for each servo asked |
| `DxlServo.AllHeardExactly` | firmware/src/dynamixel/dynamixel_hal.c:532-533 | all of them are reported valid exactly when no noise comes before the last answer and no byte was stuffed |
| `DxlServo.NoiseByteSilences` | firmware/src/dynamixel/dynamixel_hal.c:587-593 | one byte of noise before the answer of the only servo asked, and nothing is received and the servo is reported offline |
| `HoursRecord.HeldIsSerialized` | firmware/src/device/eeprom_hours.c:45-71 | a slot holds a record exactly when its sixteen bytes are that record serialized |
| `HoursRecord.HeldLayout` | firmware/src/device/eeprom_hours.c:45-71 | the letters HR, number, uptime, motor time and CRC, each most significant byte first |
| `HoursRecord.DamageInvalidates` | firmware/src/device/eeprom_hours.c:54-71 | changing one byte or two neighbouring bytes anywhere in a valid slot invalidates it |
| `HoursRecord.ValidByResidue` | firmware/src/device/eeprom_hours.c:54-71 | a slot is valid exactly when it has the magic and all sixteen bytes divide without remainder |
| `HoursRecord.NewestUnique` | firmware/src/device/eeprom_hours.c:73-110 | the choice of the newest record is determined |
| `HoursRecord.Serialize` | firmware/src/device/eeprom_hours.c:45-52 | what is serialized is held |
| `HoursRecord.Deserialize` | firmware/src/device/eeprom_hours.c:54-71 | succeeds exactly on valid slots, with the record they hold |
| `HoursRecord.SelectSlot` | firmware/src/device/eeprom_hours.c:73-110 | the first slot with the highest number among the valid ones, or -1 when there is none |
| `Odometer.BootFindsLast` | firmware/src/device/eeprom.c:296-323 | on a ring kept by persisting, boot selects the slot (n - 1) mod 16 and record n, or nothing when n is 0 |
| `Odometer.RingAdvances` | firmware/src/device/eeprom.c:325-342 | persisting record n into slot (n - 1) mod 16 keeps the ring |
| `Odometer.RingSurvives` | firmware/src/device/eeprom.c:325-342 | a write cut short that leaves its slot invalid keeps the ring without it |
| `Odometer.BootAfterTornWrite` | firmware/src/device/eeprom.c:325-342 | after a write cut short, boot restores the record before, from its slot, exactly when what is left of the slot is invalid, or numbered lower, or numbered the same and not in slot 0 |
| `Odometer.WrappedNumberLost` | firmware/src/device/eeprom_hours.c:88-106 | were the sequence number to wrap, boot would not select the newest record |
| `Odometer.PersistedTotalsGrow` | firmware/src/device/eeprom.c:289-294 | as long as totals fit 32 bits, persisted totals never decrease and motor time never exceeds uptime |
| `Odometer.NextExactly` | firmware/src/device/eeprom.c:289-342 | a persisted record has the next number, and the totals at boot with the whole minutes since added, modulo 2^32 |
| `Odometer.OnTimeBound` | firmware/src/device/eeprom.c:363-378 | integrated motor time never exceeds the time between the first and last sample |
| `Odometer.WithinPage` | firmware/src/device/eeprom.c:254-274 | a write that stays within its page is an ordinary one despite the wrapping address counter |
| `Odometer.Board.EepromWrite` | firmware/src/device/eeprom.c:254-274 | the bytes are stored contiguously whatever pages they cross |
| `Odometer.Board.EepromRead` | firmware/src/device/eeprom.c:76-94 | returns the bytes at the address |
| `Odometer.Board.Boot` | firmware/src/device/eeprom.c:296-323 | counters resume from the last record persisted |
| `Odometer.Board.Persist` | firmware/src/device/eeprom.c:325-342 | the next record is stored with the totals at that time and the ring is kept |
| `Odometer.Board.TornPersist` | firmware/src/device/eeprom.c:325-342 | whatever a power failure leaves in the slot: left invalid or as it was, the records persisted before survive; left whole, the new one is persisted |
| `Odometer.Board.CutPersist` | firmware/src/device/eeprom.c:325-342 | a power failure after k bytes of a persist loses nothing but the new record, unless the mixture in the slot is valid; over a valid record that is exactly when the two have the same CRC after k bytes |
| `HoursRecord.CutShortExactly` | firmware/src/device/eeprom_hours.c:45-71 | the first k bytes of one valid record over another make a valid slot exactly when the two have the same CRC after k bytes |
| `HoursRecord.CutShortAnywhere` | firmware/src/device/eeprom_hours.c:54-71 | over any slot they do exactly when magic and CRC come out for the mixture |
| `Odometer.Board.MotorSample` | firmware/src/device/eeprom.c:363-378 | motor time is the sum of the intervals that end with the rail above 3 V, without overflow |
| `Odometer.Run` | firmware/src/device/eeprom.c:289-342 | over any run of persists, samples, reboots and power failures from a blank region: what has been persisted is what the happenings add up to, as many records as were written, and ring, numbering, totals and counters agree with it |
| `Odometer.RecordsCounted` | firmware/src/device/eeprom.c:325-342 | the log has one record for every persist that went through |
| `RtcpWire.FramesTile` | controller/src/audio/RtcpPacket.cpp:109-142 | a datagram splits into packets exactly when it is those packets written one after another with padding only on the last |
| `RtcpWire.ChunksExact` | controller/src/audio/RtcpPacket.cpp:40-93 | a source description reads as a list of chunks exactly when it is those chunks, written, followed only by zeros |
| `RtcpPacket.WellFormedParsed` | controller/src/audio/RtcpPacket.cpp:97-182 | every well-formed compound of at most 2048 bytes parses to exactly the sender report fields and the canonical name (sections 6.1, 6.4.1 and 6.5 of RFC 3550) |
| `RtcpPacket.ParsedWellFormed` | controller/src/audio/RtcpPacket.cpp:97-182 | every datagram accepted is a well-formed compound: tiled by its packets, one sender report, first, with a non-zero source, and exactly one non-empty canonical name for it |
| `RtcpPacket.ServerPacketRead` | controller/src/audio/RtcpPacket.cpp:97-182 | the two-packet compound that the server sends, spelt out byte by byte, is read as the sender and name it was made from, for every non-zero source and every name of 1 to 255 bytes |
| `RtcpPacket.ReportLayout` | controller/src/audio/RtcpPacket.cpp:144-156 | every field of an accepted report is the big-endian number at its place in the datagram |
| `RtcpPacket.GivenExactly` | controller/src/audio/RtcpPacket.cpp:40-93 | the names given are exactly the canonical-name items in chunks about that source |
| `RtcpPacket.TakeAppend` | controller/src/audio/RtcpPacket.cpp:68-73 | taking names one after another does not depend on how they are grouped |
| `RtcpPacket.TakenOne` | controller/src/audio/RtcpPacket.cpp:68-73 | a name is left at the end exactly when there was one and it was not empty |
| `RtcpPacket.DigestExpected` | controller/src/audio/RtcpPacket.cpp:144-177 | going through the packets one by one gives what is said of all of them together |
| `RtcpPacket.ReadItems` | controller/src/audio/RtcpPacket.cpp:53-79 | the item loop ends as specified, with the name found |
| `RtcpPacket.ReadChunk` | controller/src/audio/RtcpPacket.cpp:44-89 | one chunk, with its zeros up to a word boundary |
| `RtcpPacket.ParseSourceDescriptions` | controller/src/audio/RtcpPacket.cpp:40-93 | all chunks and trailing zeros, or refusal |
| `RtcpPacket.ReadFrame` | controller/src/audio/RtcpPacket.cpp:110-142 | header, length and padding checks |
| `RtcpPacket.HandleFrame` | controller/src/audio/RtcpPacket.cpp:144-168 | what one packet does to the state of the parser |
| `RtcpPacket.ParseSenderReport` | controller/src/audio/RtcpPacket.cpp:97-182 | the result is that of the specified parser, on every datagram |
| `RtcpTiming.NtpIsFloor` | controller/src/audio/RtcpTiming.cpp:119-133 | the conversion always succeeds and is the exact time in nanoseconds, rounded down |
| `RtcpTiming.NtpMonotone` | controller/src/audio/RtcpTiming.cpp:119-133 | monotone over all 64-bit timestamps |
| `RtcpTiming.OnlyDifferenceMatters` | controller/src/audio/RtcpTiming.cpp:143-152 | media time depends only on the timestamp difference modulo 2^32 |
| `RtcpTiming.MediaTimeMonotone` | controller/src/audio/RtcpTiming.cpp:143-152 | media times are ordered exactly as the signed differences |
| `RtcpTiming.MediaTimeExact` | controller/src/audio/RtcpTiming.cpp:135-152 | a timestamp any number of samples before or after that of the report is that many sample times from the time the report gives, rounded towards it by less than a nanosecond |
| `RtcpTiming.FrameSpacing` | controller/src/audio/RtcpTiming.cpp:17-20 | frames 480 apart are 10,000,000 ns apart, or 9,999,999 exactly when they straddle the report at a distance not divisible by three; time moves forward exactly when the signed difference does not wrap |
| `RtcpTiming.CompatibleSymmetric` | controller/src/audio/RtcpTiming.cpp:154-168 | order does not matter unless the RTP timestamps are exactly 2^31 apart |
| `RtcpTiming.CompatibleAtHalf` | controller/src/audio/RtcpTiming.cpp:154-168 | what each order decides when they are |
| `RtcpTiming.OrderMatters` | controller/src/audio/RtcpTiming.cpp:154-168 | two reports for which order matters |
| `RtcpTiming.FramesDurationExact` | controller/src/audio/RtcpTiming.cpp:22-29 | the duration of frames is exact, rounded down, well beyond any queue |
| `RtcpTiming.IdleQueueFits` | controller/src/config/ConfigurationBuilder.cpp:208-241 | the idle queue is 480 to 960 frames, and with compensation and 5 ms it fits the common delay exactly for the configurations accepted |
| `RtcpTiming.IdleQueueLongest` | controller/src/audio/RtcpTiming.cpp:88-96 | of all queues of at most two chunks it is the longest that does |
| `RtcpTiming.NeverMissedOnArrival` | controller/src/audio/RtcpTiming.cpp:102-117 | a frame is to be presented at its arrival plus the common delay exactly when its media time is its time of arrival; its enqueue deadline is then at least 5 ms after arrival, so it waits and is not missed |
| `RtcpTiming.PlanMoves` | controller/src/audio/RtcpTiming.cpp:102-117 | a millisecond more of delay moves both deadlines by 1,000,000 ns; one more of compensation moves only the enqueue deadline, back by as much, and another chunk in the queue moves it back by 10,000,000 ns |
| `RtcpTiming.ClassifyTurns` | controller/src/audio/RtcpTiming.cpp:180-189 | a frame waits before its enqueue deadline, is ready up to the tolerance after it, and is missed from then on |
| `RtcpTiming.PlausibleExactly` | controller/src/audio/RtcpTiming.cpp:170-178 | whatever the delay, a deadline is plausible exactly when the media time is within the difference allowed of the time of arrival |
| `RtcpTiming.PlansInOrder` | controller/src/audio/RtcpTiming.cpp:98-117 | later media has later deadlines |
| `ReportCache.WindowGrows` | controller/src/audio/RtcpTiming.cpp:48-55 | a new source pushes out the oldest exactly when the cache is full |
| `ReportCache.DroppedAtCapacity` | controller/src/audio/RtcpTiming.cpp:48-55 | a source is dropped exactly at the capacity-th insertion after its own |
| `ReportCache.RtcpReportCache.Store` | controller/src/audio/RtcpTiming.cpp:39-57 | keys are the duplicate-free window of insertions, values the newest reports; eviction is reported exactly |
| `ReportCache.RtcpReportCache.Find` | controller/src/audio/RtcpTiming.cpp:59-66 | the newest report stored for a held source, and nothing for any other |
| `ReportCache.RtcpReportCache.Size` | controller/src/audio/RtcpTiming.cpp:73-76 | never more than the capacity |
| `ReportCache.RtcpReportCache.IsEmpty` | controller/src/audio/RtcpTiming.cpp:68-71 | empty exactly when no source is held |
| `ReportCache.NewReportCache` | controller/src/audio/RtcpTiming.cpp:33-37 | no capacity is refused |
| `ReportCache.Run` | controller/src/audio/RtcpTiming.cpp:39-57 | after any stores the cache agrees with their history |
| `JitterBuffer.PushedPlace` | controller/src/audio/OpusRtpAudioClient.cpp:89-91 | a pushed frame goes behind the frames whose entries come before the first entry its timestamp has left; that is last if it has left none |
| `JitterBuffer.LiveOnce` | controller/src/audio/OpusRtpAudioClient.cpp:190-201 | the queue names every frame held exactly once |
| `JitterBuffer.LiveKeep` | controller/src/audio/OpusRtpAudioClient.cpp:190-194 | removing frames lazily removes their entries from the live order and moves nothing |
| `JitterBuffer.SameGenerationSameSource` | controller/src/audio/OpusRtpAudioClient.cpp:69-75 | equal generations mean equal sources, within 2^64 of them |
| `JitterBuffer.Run` | controller/src/audio/OpusRtpAudioClient.cpp:66-157 | over any run in which no taken or discarded timestamp is pushed again in its generation, the buffer holds and answers what a plain list of packets in order of arrival would |
| `JitterBuffer.PushListed` | controller/src/audio/OpusRtpAudioClient.cpp:66-97 | pushing a new packet does to the frames and the live order what it does to the list |
| `JitterBuffer.RtpJitterBuffer.Push` | controller/src/audio/OpusRtpAudioClient.cpp:66-97 | result, generation, eviction, new queue and timestamps pushed, with the place a re-pushed timestamp takes, also after an eviction; at most 32 frames, all from the current source |
| `JitterBuffer.RtpJitterBuffer.MakeRoom` | controller/src/audio/OpusRtpAudioClient.cpp:83-87 | the eviction loop drops exactly one frame, the oldest, and only when full |
| `JitterBuffer.RtpJitterBuffer.DiscardOldest` | controller/src/audio/OpusRtpAudioClient.cpp:180-188 | exactly the oldest live frame goes |
| `JitterBuffer.RtpJitterBuffer.DiscardConsumedOrderEntries` | controller/src/audio/OpusRtpAudioClient.cpp:190-194 | only stale entries go, and the order is empty exactly when no frame is held |
| `JitterBuffer.RtpJitterBuffer.Take` | controller/src/audio/OpusRtpAudioClient.cpp:99-109 | returns and removes the frame asked for |
| `JitterBuffer.RtpJitterBuffer.Peek` | controller/src/audio/OpusRtpAudioClient.cpp:111-123 | the frame held, found exactly when it is in the queue |
| `JitterBuffer.RtpJitterBuffer.GetInitialPlayout` | controller/src/audio/OpusRtpAudioClient.cpp:125-145 | empty exactly when no frame is held, otherwise the oldest |
| `JitterBuffer.PrecedesExactly` | controller/src/audio/OpusRtpAudioClient.cpp:40 | a timestamp precedes those up to 2^31 samples after it, and none less than 2^31 before it, across the wrap |
| `JitterBuffer.RemainingExactly` | controller/src/audio/OpusRtpAudioClient.cpp:147-157 | discarding before a timestamp keeps the frame any number of samples below 2^31 at or after it, unchanged, and drops the one up to 2^31 before it |
| `JitterBuffer.RtpJitterBuffer.DiscardBefore` | controller/src/audio/OpusRtpAudioClient.cpp:147-157 | exactly the frames that precede the timestamp go, in whatever order they are visited, and the queue keeps its order |
| `OutputRing.CopyInOk` | controller/src/audio/CoreAudioOutput.cpp:264-267 | the cell written is never one still to be played |
| `OutputRing.CopyOutOk` | controller/src/audio/CoreAudioOutput.cpp:300-303 | the cell read holds the next sample of the stream, whatever the producer is doing |
| `OutputRing.PlayedIsPrefix` | controller/src/audio/CoreAudioOutput.cpp:288-306 | what has been played since the last clear is the beginning of what has been written since |
| `OutputRing.TwoChunks` | controller/src/audio/CoreAudioOutput.cpp:264-267 | the two runs of a copy visit the cells modulo 8192, even when positions have wrapped at 2^64 |
| `OutputRing.CoreAudioOutput.QueuedFrames` | controller/src/audio/CoreAudioOutput.cpp:272-276 | exactly the samples published and not played, and the pipeline latency while running |
| `OutputRing.CoreAudioOutput.Used` | controller/src/audio/CoreAudioOutput.cpp:255-257 | exactly the samples published and not played, at most 8192 |
| `OutputRing.CoreAudioOutput.BeginWrite` | controller/src/audio/CoreAudioOutput.cpp:254-262 | refused exactly when the samples do not fit |
| `OutputRing.CoreAudioOutput.Publish` | controller/src/audio/CoreAudioOutput.cpp:268-269 | the stream grows by exactly the samples copied in |
| `OutputRing.CoreAudioOutput.FinishRender` | controller/src/audio/CoreAudioOutput.cpp:304-306 | the samples copied out, then silence only for what was short |
| `OutputRing.CoreAudioOutput.StopAndClear` | controller/src/audio/CoreAudioOutput.cpp:230-239 | nothing is left to play |
| `OutputRing.ClearWhileRendering` | controller/src/audio/CoreAudioOutput.cpp:230-239 | a clear while a render is under way, because the device would not stop, is undone by the position that render stores: the ring ends up empty only if the render took all there was |
| `OutputRing.Run` | controller/src/audio/CoreAudioOutput.cpp:230-306 | over any interleaving of the two threads the ring looks like the queue that the steps describe, its stream is the writes accepted and published in order, and what was heard is a prefix of what was published since the clear |
| `OutputRing.TakeStep` | controller/src/audio/CoreAudioOutput.cpp:230-306 | every step on the array does to the outside view what it does to a plain queue |
| `OutputRing.StreamIsPublished` | controller/src/audio/CoreAudioOutput.cpp:268-269 | the stream of the queue is the published writes, joined in order |
| `OutputRing.PublishedWasWritten` | controller/src/audio/CoreAudioOutput.cpp:254-269 | nothing is published that was not written |
| `Watchdog.RunStartUnique` | controller/src/watchdog/WatchdogThread.cpp:51-75 | the stretch over the limit that a sample belongs to is determined |
| `Watchdog.CheckedStops` | controller/src/watchdog/WatchdogThread.cpp:51-75 | a check trips exactly when the stretch began earlier and its whole seconds reach the response time |
| `Watchdog.EnoughSeconds` | controller/src/watchdog/WatchdogThread.cpp:64-68 | elapsed nanoseconds round down to whole seconds, and reach the response time exactly when they reach it rounded up to whole seconds |
| `Watchdog.TripsExactly` | controller/src/watchdog/WatchdogThread.cpp:51-75 | a quantity trips exactly when its stretch over the limit began at an earlier sample, at least the response time, in whole seconds of 1,000,000,000 ns, before |
| `Watchdog.WholeResponse` | controller/src/watchdog/WatchdogThread.cpp:64-68 | a response time of whole seconds needs no rounding |
| `Watchdog.CheckedWarns` | controller/src/watchdog/WatchdogThread.cpp:76-90 | a warning is sent exactly on reaching the warning level, at the first check or after falling from over the limit |
| `Watchdog.WatchdogThread.Judge` | controller/src/watchdog/WatchdogThread.cpp:51-90 | the body of a check does what is specified |
| `Watchdog.WatchdogThread.Check` | controller/src/watchdog/WatchdogThread.cpp:92-222 | the same for each of the four quantities, with what has been seen of it so far |
| `Watchdog.WatchdogThread.Pass` | controller/src/watchdog/WatchdogThread.cpp:38-46 | one outcome for each quantity: an emergency stop exactly when it trips, and otherwise a warning exactly when one is due |
| `Watchdog.Run` | controller/src/watchdog/WatchdogThread.cpp:38-90 | pass by pass and quantity by quantity, exactly the stops and warnings that the samples call for; the run ends with the first pass in which any quantity trips, or with the last |
| `SerialFraming.CutContinues` | controller/src/io/SerialReader.cpp:93-110 | cutting a longer stream is cutting what was left over together with what is new |
| `SerialFraming.CutUnique` | controller/src/io/SerialReader.cpp:95-110 | lines and tail are the only way to cut a stream at its newlines |
| `SerialFraming.CutWhole` | controller/src/io/SerialReader.cpp:95-110 | lines and tail make up the stream again |
| `SerialFraming.RoundTrip` | controller/src/io/SerialWriter.cpp:47-62 | what the writer sends is read back unchanged exactly when every payload is non-empty, has no newline and does not end in a carriage return |
| `SerialFraming.StrippedExactly` | controller/src/io/SerialReader.cpp:95-110 | a line that ends in a carriage return loses just that, and any other line nothing |
| `SerialFraming.SerialReader.Receive` | controller/src/io/SerialReader.cpp:93-110 | queue and buffer are what the bytes received so far call for |
| `SerialFraming.Run` | controller/src/io/SerialReader.cpp:93-110 | messages and remaining buffer do not depend on how the bytes were cut into reads |
| `SerialFraming.WriteAll` | controller/src/io/SerialWriter.cpp:33-62 | each non-empty payload is sent with a newline |
| `HeadMixing.ConvertWithin` | controller/src/util/ranges.cpp:5-28 | the result lies between the ends of the new range, whichever way it runs, and the ends map to the ends |
| `HeadMixing.TruncatedProportional` | controller/src/util/ranges.cpp:22-24 | truncating integer arithmetic takes proportional shares |
| `HeadMixing.TruncatedNear` | controller/src/util/ranges.cpp:22-24 | such a share differs from the exact one by less than a unit, towards zero |
| `HeadMixing.ConvertNear` | controller/src/util/ranges.cpp:5-28 | between the ends the result is the exact one with less than a unit taken off towards the new minimum; beyond them it is that of the nearer end |
| `HeadMixing.PositionSplits` | controller/src/creature/DifferentialHead.cpp:25-34 | the left servo gets the height less the tilt, the right one the height plus the tilt |
| `HeadMixing.HeadEnds` | controller/src/creature/DifferentialHead.cpp:16-34 | where the lowest and highest height and tilt put the left and the right servo |
| `HeadMixing.HeadMoves` | controller/src/creature/DifferentialHead.cpp:16-23 | more height asked for never gives less, and more tilt never less |
| `HeadMixing.MixedInRange` | controller/src/creature/DifferentialHead.cpp:16-34 | left and right are computed without 32-bit overflow and stay within the range for all inputs exactly when the largest products fit and the offset is at least two |
| `HeadMixing.PositionWithin` | controller/src/creature/DifferentialHead.cpp:16-34 | any height and tilt come out within the range, without overflow, if the largest products fit |
| `HeadMixing.OverflowExactly` | controller/src/util/ranges.cpp:22-24 | the 32-bit products are free of overflow for all inputs exactly when they are for the largest |
| `HeadMixing.PulseWithin` | controller/src/device/Servo.cpp:165-167 | pulses stay between the shortest and longest |
| `HeadMixing.Servo.Move` | controller/src/device/Servo.cpp:131-163 | accepted exactly for positions 0 to 1023, and otherwise nothing changes |
| `HeadMixing.ServoRangeFits` | controller/src/creature/DifferentialHead.cpp:16-34 | a head whose positions are servo positions never overflows |
| `HeadMixing.MoveHead` | controller/src/creature/Parrot.cpp:72-76 | both servos take every mixed position, the left one the left and the right one the right, and no product overflows |

## Left out

- TorqueTask.Firmware.ReadRegister: what the bus does with an access is given as data, not computed from its timing.
- TorqueRun.Run: does not cover CONFIG handling in the middle of a pass, because the source relies on it not happening.
- TorqueTask.Firmware.WriteRegister: does not model a write that lands late, after a retry or a later write.
- TorqueTask.Firmware.TaskPass: stops before the position broadcast and the telemetry of a pass, which are modelled in DxlServo and touch no torque.
- DxlScanner.Metrics.ReceiveMulti: counts in unbounded integers where the firmware has 64-bit counters, and starts from the bytes that the servos send; when the transfer ends early is left out.
- DxlProtocol.BuildPacket: takes at most 246 parameters, the size of the packet's own array.
- DxlServo.MatchResponses: starts once responses have arrived; building the sync-read request and its timeout are left out.
- Odometer.Board.Persist: requires that the record number does not wrap, which the source puts at about 120,000 years.
- Odometer.Board.EepromWrite: covers writes that stay inside the chip, not an address that wraps at its end.
- Odometer.Board.TornPersist: when the bytes left behind form some other valid record, says only what the memory then is; what boot makes of it is said by Odometer.BootAfterTornWrite on the ring alone.
- Odometer.Run: a power failure leaves the slot as it was, invalid, or with the whole record; which prefixes of a write are invalid is said by HoursRecord.CutShortExactly.
- DxlScanner.StreamCounted: says nothing of noise that itself contains a header; what is counted then is said by DxlScanner.ReceiveCounted through the images taken.
- RtcpTiming.NeverMissedOnArrival: clock readings are unbounded integers, so overflow of absolute steady-clock times is not modelled.
- RtcpTiming.NtpIsFloor: assumes a system clock that counts nanoseconds, as libstdc++ has; libc++ counts microseconds.
- ReportCache.RtcpReportCache.Store: one call at a time, as under the mutex.
- JitterBuffer.RtpJitterBuffer.Push: the idle test against the wall clock is left out.
- OutputRing.CoreAudioOutput.StopAndClear: requires both threads idle, which stopping the audio unit brings about; what happens otherwise is said by OutputRing.ClearWhileRendering. Memory ordering is taken as sequentially consistent.
- OutputRing.CoreAudioOutput.FinishRender: the frames wanted are those that fit the destination buffer; further channel buffers and the underrun count are left out.
- Watchdog.WatchdogThread.Check: values are exact reals, and the servo load is taken as already divided by ten; messages and module traffic are left out.
- Watchdog.Run: stops from outside are modelled by the list of passes ending.
- SerialFraming.WriteAll: every write goes through whole; partial writes and errors end the thread in the source.
- HeadMixing.MoveHead: the offset is given in positions; its computation from a floating-point percentage is left out, as is the smoothing of servo positions.
- The single-response exchange of the bus driver, PIO, DMA, GPIO, I2C and alarm programming: hardware calls.
- Mutex timeouts on the motor map, logging, status lights, statistics and sensor messages: presentation.
- Gain ramp, limiter, mixing and Opus decoding: floating point and foreign libraries.
- Stepper motors, sockets, web socket, HTTP, E1.31 and configuration loading other than the audio delay check.
