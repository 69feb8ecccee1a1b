# A verified model of the Modbus sensor firmware

The firmware reads an SHT3x sensor, keeps its configuration in flash, and serves its registers as a Modbus
RTU slave over a UART. This project models the parts of it in which state, arithmetic or recovery from faults
is at stake, and proves what they keep over whole runs and all inputs.

- **CRC engines** (`Bits`, `Crc16`, `CrcDistance`, `Crc8`, `Crc8Distance`). The register step as a linear bijection that keeps
  parity; zero residue, burst and odd-error detection for any length; and the exact period 32767 of the CRC-16
  register, from which two flipped bits pass exactly when their distance is a multiple of it, and no change of
  one, two or three bits goes unnoticed in up to 4095 bytes; for the CRC-8 the period is 127 and the limit 15 bytes.
- **Receive path** (`Ticks`, `UartRingBuffer`, `UartReceiver`, `FrameQueue`). The DMA ring with its IDLE
  interrupt, timer and polled timeout, as classes proved against step functions, and stream conservation and
  end-of-frame detection over every interleaving; the software assembler; the ten-slot queue as a FIFO.
- **Modbus slave** (`RegisterMap`, `SettingsCommands`, `SettingsNumbers`, `ModbusSlave`, `ModbusRegisters`,
  `ModbusNumbers`, `ModbusMaster`, `ModbusService`, `ModbusPipeline`, `ModbusExchange`). `ModbusService` updates tables
  and buffers in place and is proved equal to the function `Processed`; the lemmas about that function say what a master
  observes, in the `Numbers` modules from the bytes and words of the frames alone.
  `ModbusMaster` builds requests; `ModbusPipeline` joins line, queue and slave; `ModbusExchange` follows one frame
  from its first byte on the line to the reply.
- **Persistence** (`Layout`, `DeviceTypes`, `DeviceConfig`, `FlashStorage`, `ConfigManager`). Packed images,
  flash that only clears bits when programmed and may fail at any point, saving and restoring.
- **Printer** (`LcdPrinter`). Fixed-point text and its parser.
- **Supervision** (`ErrorManager`, `SensorService`, `Sht3x`). Fault latch and recovery requests characterised by
  the history of reports; the measurement cycle on a wrapping clock.

Words and bytes are bit vectors, counters are bounded integers that saturate or wrap as the firmware's do, and
the clock is real time reduced modulo 2^32. Where the firmware takes its input from hardware (bus results, the
DMA position, flash status, the build date) the model takes a parameter or an arbitrary value.

Some results are not what one might expect of the firmware; the exact conditions are proved:

- A sensor package with a hard fault (no model, an unknown gas or unit) is turned down only if it has no soft
  fault: each soft fault overwrites the error code and is then dropped. A package without a sensor type always
  has a soft fault. Such accepted packages are saved, and the next start falls back to the defaults
  (`SettingsCommands.StoredIsRestored`, `SettingsCommands.BlankIsAccepted`).
- A base package with an invalid id fails as a command, so that nothing is published or marked for saving, and yet
  all its other settings except the analog auto-reset flag have been taken over (`ModbusRegisters.BaseSettings`,
  `SettingsCommands.NewFlagsFollow`). An acknowledged one with an unsupported baud rate loses the whole configuration
  at the next start (`SettingsCommands.BaseIsRestored`).
- A multiple write of the command register alone claims 255 arguments, which it did not carry
  (`ModbusRegisters.ArgumentsCarried`, `ModbusRegisters.StaleArguments`); a package is counted in full exactly when
  its write starts at register 0, and one short from register 1 (`ModbusMaster.PackageFromZero`, `ModbusMaster.PackageOverWire`).
- The sum of severe I2C errors is taken in 8 bits, so 255 timeouts and one bus error ask for nothing
  (`ErrorManager.SevereSumWraps`).
- A fetch returns the marked bytes exactly when none are marked, or fewer than 256 are marked and at most 256 are
  unread. Beyond that, 256 or more marked bytes are taken too few, and more than 256 unread ones have been
  overwritten, so that later bytes appear in their places even when the number is right
  (`UartReceiver.FetchTakesAllIff`, `UartReceiver.OverrunLosesBytes`, `UartReceiver.OverrunMixesBytes`).
- A byte that arrives after a software frame was completed withdraws it: the frame waits exactly as long as nothing
  arrives, is cleared or is fetched (`UartRingBuffer.LateByteWithdrawsFrame`).
- `docs/test_refactor_notes.md` line 54 says that a successful trigger no longer reports I2C success; the code
  still does (`Services/Src/SensorService.cpp` line 75), and the model follows the code.

## Model

| member | source | states |
|---|---|---|
| `Crc16.ComputeCrc` | Services/Src/ModbusService.cpp:87-108 | the nested loop computes the CRC of the first `len` bytes, the fold of the byte step from 0xFFFF |
| `Crc16.UpdateIsRun` | Services/Src/ModbusService.cpp:95-105 | XOR-ing in a byte and clocking eight times is the same as feeding its bits one by one, lowest first |
| `Crc16.RunLinear` | Services/Src/ModbusService.cpp:98-104 | feeding bits is linear in register and message together |
| `Crc16.ZeroRun` | Services/Src/ModbusService.cpp:98-104 | up to 16 bits take a register to zero exactly when the register is those bits |
| `Crc16.Residue` | Services/Src/ModbusService.cpp:456-465 | a frame passes the stored-CRC test if and only if the CRC over all of it, CRC bytes included, is 0 |
| `Crc16.SealedIsAccepted` | Services/Src/ModbusService.cpp:538-540 | a message with its CRC appended, low byte first, passes the test |
| `Crc16.AcceptedIsSealed` | Services/Src/ModbusService.cpp:456-465 | only such messages pass it |
| `Crc16.CheckValue` | Services/Src/ModbusService.cpp:87-108 | the CRC of the digits 1 to 9 is 0x4B37, the check value of the Modbus CRC |
| `Crc16.RequestPasses` | Services/Src/ModbusService.cpp:456-465 | the request 01 03 00 00 00 0A C5 CD passes the test: the low byte of its CRC comes first |
| `Crc16.ZerosFail` | Services/Src/ModbusService.cpp:90-93 | a frame of zeros, however long, never passes |
| `Crc16.AcceptsAfterChange` | Services/Src/ModbusService.cpp:456-465 | a changed frame passes exactly when the pattern of flipped bits takes the zero register to zero |
| `Crc16.BurstDetected` | Services/Src/ModbusService.cpp:456-465 | any change of a valid frame of any length inside 16 consecutive bits fails the test |
| `Crc16.AcceptedIsEven` | Services/Src/ModbusService.cpp:456-465 | every frame that passes has an even number of set bits |
| `Crc16.OddFlipsDetected` | Services/Src/ModbusService.cpp:456-465 | any odd number of flipped bits, anywhere, fails the test |
| `CrcDistance.RoundsIsProduct` | Services/Src/ModbusService.cpp:98-104 | clocking a register n times multiplies it by the n-th power of x |
| `CrcDistance.Period` | Services/Src/ModbusService.cpp:98-104 | the register returns exactly at the multiples of 32767 |
| `CrcDistance.TwoFlips` | Services/Src/ModbusService.cpp:456-465 | a frame with two flipped bits passes if and only if their distance is a multiple of 32767 |
| `CrcDistance.FewFlipsDetected` | Services/Src/ModbusService.cpp:456-465 | one to three flipped bits in at most 4095 bytes always fail the test |
| `Crc8.ComputeCrc` | Drivers/Src/Sht3xSensor.cpp:4-21 | the nested loop computes the CRC-8 of a slice |
| `Crc8.UpdateIsRun` | Drivers/Src/Sht3xSensor.cpp:8-18 | the byte-wise loop is the bit-serial one, highest bit first |
| `Crc8.Residue` | Drivers/Src/Sht3xSensor.cpp:44-47 | data pass with their CRC appended if and only if the CRC over all of them is 0 |
| `Crc8.CheckValue` | Drivers/Src/Sht3xSensor.cpp:4-21 | the CRC-8 of BE EF is 92, the example of the sensor's data sheet |
| `Crc8.BurstDetected` | Drivers/Src/Sht3xSensor.cpp:44-47 | any change inside 8 consecutive bits fails, at any length |
| `Crc8.OddFlipsDetected` | Drivers/Src/Sht3xSensor.cpp:44-47 | any odd number of flipped bits fails |
| `Crc8Distance.Period` | Drivers/Src/Sht3xSensor.cpp:11-17 | the CRC-8 register returns exactly at the multiples of 127 |
| `Crc8Distance.TwoFlips` | Drivers/Src/Sht3xSensor.cpp:44-47 | two flipped bits pass if and only if their distance is a multiple of 127, at any length |
| `Crc8Distance.FewFlipsDetected` | Drivers/Src/Sht3xSensor.cpp:44-47 | one to three flipped bits in at most 15 bytes always fail |
| `Sht3x.ReadMeasurement` | Drivers/Src/Sht3xSensor.cpp:35-53 | outputs are written only if the bus read succeeded and both words pass; otherwise they keep their values and the error says which failed |
| `Sht3x.WordsPassByBytes` | Drivers/Src/Sht3xSensor.cpp:44-47 | the third byte is the CRC of the first two, the sixth that of the fourth and fifth |
| `Sht3x.BigEndianInNumbers` | Drivers/Src/Sht3xSensor.cpp:49-50 | a raw word is 256 times its first byte plus the second |
| `Sht3x.DamagedFrameFails` | Drivers/Src/Sht3xSensor.cpp:44-47 | six good bytes damaged by an odd number of flips or by up to three flips in a word group, or by any burst of at most 8 bits, also across the two groups, are never a measurement |
| `Sht3x.TemperatureAccuracy` | Drivers/Src/Sht3xSensor.cpp:55-58 | no 32-bit overflow, less than one unit below the exact value, end points exact |
| `Sht3x.HumidityAccuracy` | Drivers/Src/Sht3xSensor.cpp:60-63 | the same for humidity |
| `Sht3x.ConversionsMonotone` | Drivers/Src/Sht3xSensor.cpp:55-63 | both conversions are monotone |
| `UartRingBuffer.RingBuffer.Push` | Drivers/Src/UartRingBuffer.cpp:3-13 | appends to a FIFO of capacity 256, or refuses and changes nothing when full |
| `UartRingBuffer.RingBuffer.Pop` | Drivers/Src/UartRingBuffer.cpp:15-25 | takes the oldest byte; an empty queue leaves the output parameter alone |
| `UartRingBuffer.FrameBuffer.ReceiveByte` | Drivers/Src/UartRingBuffer.cpp:49-53 | the byte is queued unless full, and a waiting frame is withdrawn either way |
| `UartRingBuffer.FrameBuffer.CompleteFrame` | Drivers/Src/UartRingBuffer.cpp:55-72 | terminates having drained the whole queue into the frame; fails exactly on an empty queue |
| `UartRingBuffer.FrameBuffer.FetchFrame` | Drivers/Src/UartRingBuffer.cpp:79-94 | returns the frame cut to `maxLength`, once, and touches nothing behind it |
| `UartRingBuffer.FetchDeliversFrame` | Drivers/Src/UartRingBuffer.cpp:49-94 | a fetch delivers exactly the bytes that arrived between the last two successful completions, cut to 256 and to `maxLength` |
| `UartRingBuffer.LateByteWithdrawsFrame` | Drivers/Src/UartRingBuffer.cpp:49-94 | until the next frame is completed, a waiting frame goes on waiting if and only if no byte arrives, nothing is cleared and nothing fetched |
| `UartRingBuffer.ReadyMeansDrained` | Drivers/Src/UartRingBuffer.cpp:49-101 | in every run, while a frame waits nothing is queued behind it |
| `UartReceiver.Receiver.Poll` | Legacy/Src/uart.cpp:379-414 | one poll makes the step `Polled`: starts, extends or ends the 3 ms wait, with the signed comparison of 32-bit ticks |
| `UartReceiver.Receiver.GetFrame` | Legacy/Src/uart.cpp:335-367 | copies the bytes from the read position to the frame end, with wrap-around and cut to `max_len`, and advances it by as many; a null destination gets 0 and changes nothing |
| `UartReceiver.Receiver.FetchFrame` | Legacy/Src/uart.cpp:125-143 | fetches only a ready frame into a given destination and clears the flag; otherwise returns 0 and changes nothing |
| `UartReceiver.Receiver.IdleInterrupt` | Legacy/Src/uart.cpp:424-437 | the IDLE interrupt marks the DMA head as frame end |
| `UartReceiver.RingHolds` | Legacy/Src/uart.cpp:335-367 | the ring holds each of the last 256 bytes at its position modulo 256 |
| `UartReceiver.StepConserves` | Legacy/Src/uart.cpp:335-437 | with at most 256 bytes unread every step keeps consumed <= frame end <= written and the fetched bytes a prefix of the stream |
| `UartReceiver.StreamConserved` | Legacy/Src/uart.cpp:335-437 | over every interleaving in which at most 256 bytes are ever unread, what is fetched is exactly a prefix of what arrived, across any number of wraps |
| `UartReceiver.FetchTakesAllIff` | Legacy/Src/uart.cpp:335-367 | a full fetch returns exactly the marked bytes, whatever bytes arrived, if and only if none are marked, or fewer than 256 are marked and at most 256 are unread; in number it takes all if and only if fewer than 256 are marked |
| `UartReceiver.OverrunLosesBytes` | Legacy/Src/uart.cpp:345-349 | a run in which 257 marked bytes yield only the last of them |
| `UartReceiver.OverrunMixesBytes` | Legacy/Src/uart.cpp:335-367 | a run in which 100 marked bytes, overwritten by 200 later ones, yield 44 later bytes before the remaining 56 |
| `UartReceiver.FrameEndsAfterSilence` | Legacy/Src/uart.cpp:379-414 | a poll ends a frame only after polls spanning at least 3 ms all saw the same head, also across a wrap of the tick |
| `UartReceiver.SilenceEndsFrame` | Legacy/Src/uart.cpp:379-414 | with unread bytes, no frame ready and a silent line, polls spanning at least 3 ms (and less than 2^31) always end the frame at the last byte |
| `UartReceiver.SilentLineStays` | Legacy/Src/uart.cpp:379-414 | with nothing unread and no wait running, polling ends nothing |
| `UartReceiver.FetchedOnce` | Legacy/Src/uart.cpp:125-143 | after a frame has been fetched whole, polls on the silent line flag nothing and a further fetch takes nothing |
| `FrameQueue.Queue.Enqueue` | Services/Src/ModbusService.cpp:689-727 | appends the frame, cut to 256 bytes and stamped, to a FIFO of ten, or counts an overflow |
| `FrameQueue.Queue.Dequeue` | Services/Src/ModbusService.cpp:729-761 | takes the oldest frame over the caller's buffer, whose remaining bytes stay; without a buffer nothing is taken |
| `FrameQueue.Queue.Peek` | Services/Src/ModbusService.cpp:763-776 | shows the oldest frame |
| `FrameQueue.Queue.Pop` | Services/Src/ModbusService.cpp:778-792 | drops the oldest frame |
| `FrameQueue.FirstInFirstOut` | Services/Src/ModbusService.cpp:689-834 | over every sequence of operations frames leave in order, none lost or doubled; a frame is refused only when ten wait; the counter counts refusals modulo 2^32 |
| `RegisterMap.SyncHolding` | Services/Src/ModbusService.cpp:162-381 | the overlapping writes of `syncAll` leave exactly the flat table `Holding` in the holding registers |
| `RegisterMap.SyncInput` | Services/Src/ModbusService.cpp:162-381 | and the table `Input` in the input registers |
| `RegisterMap.StagesMakeTables` | Services/Src/ModbusService.cpp:162-381 | later writes win where ranges overlap: analog levels give way to sensor codes at 0x20..0x22, the location to the flags at 0x4D |
| `RegisterMap.TablesShowConfig` | Services/Src/ModbusService.cpp:195-366 | both tables show identity, thresholds, numbers, texts and flags of the configuration |
| `RegisterMap.TablesShowLimits` | Services/Src/ModbusService.cpp:233-378 | both tables show its hysteresis, cycle, gas index, supply and times |
| `RegisterMap.TablesShowBuild` | Services/Src/ModbusService.cpp:162-234 | both tables show model, versions and build date |
| `RegisterMap.TablesShowAlarms` | Services/Src/ModbusService.cpp:162-381 | both tables show status and off-delay of each alarm and the applied gas |
| `RegisterMap.TablesShowFloats` | Services/Src/ModbusService.cpp:283-378 | the four registers computed in floating point stand where the firmware puts them |
| `RegisterMap.TablesShowFaults` | Services/Src/ModbusService.cpp:426-448 | both tables show the fault counters, the health and the two streaks |
| `RegisterMap.TablesKeepTheRest` | Services/Src/ModbusService.cpp:162-381 | every register for which nothing is published keeps its contents |
| `RegisterMap.WordsInNumbers` | Services/Src/ModbusService.cpp:162-381 | which byte of a pair is the high one, and the baud rate in hundreds modulo 2^16 |
| `RegisterMap.CountersInNumbers` | Services/Src/ModbusService.cpp:426-448 | the high byte of a pair of counters is the first |
| `RegisterMap.FreshRegisters` | Config/Src/config_manager.c:34-82 | what a master reads, register by register, from a device that started with the defaults |
| `RegisterMap.UpdateDiagnostics` | Services/Src/ModbusService.cpp:426-448 | registers 0x74..0x7B mirror the fault counters, nothing else changes |
| `SettingsCommands.Judge` | Services/Src/ModbusService.cpp:1067-1469 | the last-writer-wins error code ends as 0 exactly unless there is a hard fault and no soft one |
| `SettingsCommands.CheckDirections` | Services/Src/ModbusService.cpp:1404-1445 | the chained tests note a fault exactly if a non-oxygen alarm falls, alarms of one direction are out of order, or alarms 2 and 3 differ in direction |
| `SettingsCommands.CheckLimits` | Services/Src/ModbusService.cpp:1358-1381 | warm-up, temperatures and calibration times are checked against their ranges |
| `SettingsCommands.CheckWidths` | Services/Src/ModbusService.cpp:1383-1402 | the loop notes a fault exactly if some hysteresis, taken of the range over the factor, exceeds half its alarm level; only exact ties are left to rounding |
| `SettingsCommands.InWholeNumbers` | Services/Src/ModbusService.cpp:1383-1402 | in exact arithmetic that comparison is one of whole numbers |
| `SettingsCommands.ReadAlarms` | Services/Src/ModbusService.cpp:1180-1203 | status bytes and off-delays of three alarms from six words |
| `SettingsCommands.StatusTells` | Services/Src/ModbusService.cpp:1180-1203 | each flag of a status byte is set if and only if it was asked for |
| `SettingsCommands.ReadTriggers` | Services/Src/ModbusService.cpp:1264-1295 | hysteresis and trigger types are taken from packages of at least 57 words, and kept otherwise |
| `SettingsCommands.SaveSensorSettings` | Services/Src/ModbusService.cpp:1045-1505 | returns 0 exactly for `Rejected` packages, with settings and save flags untouched; otherwise stores everything and sets both flags |
| `SettingsNumbers.RejectedInNumbers` | Services/Src/ModbusService.cpp:1067-1469 | exactly which packages are turned down, every word and limit as a number |
| `SettingsNumbers.TooWideInNumbers` | Services/Src/ModbusService.cpp:1383-1402 | which words make a hysteresis too wide |
| `SettingsNumbers.SensorInNumbers` | Services/Src/ModbusService.cpp:1067-1505 | every field of the stored sensor data, from the words of the package, its length, or the old value |
| `SettingsNumbers.AlarmsInNumbers` | Services/Src/ModbusService.cpp:1180-1203 | alarm levels, off-delays and hysteresis stored, and no other setting |
| `SettingsNumbers.AlarmsPublished` | Services/Src/ModbusService.cpp:1180-1203 | after an accepted package each of 0x1A to 0x1C, in both tables, has the low byte of its own delay word below and its four flags above |
| `SettingsCommands.SensorPublished` | Services/Src/ModbusService.cpp:162-366 | after publishing, 0x26..0x28, 0x20, 0x34..0x37, 0x3C..0x3F, 0x58 and 0x59 hold the argument words and 0x21, 0x22 their low bytes, in both tables |
| `SettingsCommands.LimitsPublished` | Services/Src/ModbusService.cpp:162-378 | the same for the limits of a complete package |
| `SettingsCommands.StoredIsValid` | App/Src/ConfigManager.cpp:56-87 | from a valid configuration, a stored package leaves a valid one if and only if it had no hard fault and a sensor type |
| `SettingsCommands.StoredIsRestored` | App/Src/ConfigManager.cpp:104-119 | exactly those packages survive the next start; others end in the defaults |
| `SettingsNumbers.PackageSurvives` | App/Src/ConfigManager.cpp:56-119 | a stored package survives the next start if and only if it names a model, a type, a gas of at least 30 and a unit from 2 to 5 |
| `SettingsCommands.BlankIsAccepted` | Services/Src/ModbusService.cpp:1447-1469 | an all-zero package is accepted at any sufficient length, and lost at the next start |
| `SettingsCommands.SaveBaseSettings` | Services/Src/ModbusService.cpp:913-1043 | fails without effect below 45 words; otherwise rewrites the settings, and only a valid id sets the save flag and the address |
| `SettingsCommands.NewFlagsFollow` | Services/Src/ModbusService.cpp:950-1036 | each of the eight flags follows its word, those the package is too short for stay, the high byte stays |
| `SettingsCommands.SetFlags` | Services/Src/ModbusService.cpp:950-1036 | clearing groups and raising flags one by one computes those flags |
| `SettingsNumbers.FlagsInNumbers` | Services/Src/ModbusService.cpp:950-1036 | the flag register bit by bit, from the words, the length of the package and its id |
| `SettingsNumbers.BaseInNumbers` | Services/Src/ModbusService.cpp:913-1043 | every field of the stored base settings, the baud rate with the high word first |
| `SettingsNumbers.WideInNumbers` | Services/Src/ModbusService.cpp:990-994 | the first word of the baud rate counts 65536 times |
| `SettingsCommands.BasePublished` | Services/Src/ModbusService.cpp:195-254 | after publishing, serial number and location registers hold the argument words and 0x4D the new flags, in both tables |
| `SettingsCommands.PanelPublished` | Services/Src/ModbusService.cpp:245-254 | after publishing, 0x1D..0x1F, 0x31 and 0x32 of the holding table hold analog levels, display and baud rate of the package |
| `SettingsCommands.BaseIsValid` | App/Src/ConfigManager.cpp:56-87 | a base package leaves a valid configuration if and only if its baud rate is supported |
| `SettingsCommands.BaseIsRestored` | App/Src/ConfigManager.cpp:104-119 | exactly the base packages with a supported baud rate survive the next start; any other loses the whole configuration |
| `SettingsNumbers.BaseSurvives` | App/Src/ConfigManager.cpp:47-119 | a base package survives the next start if and only if its baud rate is 9600, 19200, 38400, 57600 or 115200 |
| `ModbusSlave.IgnoredFrames` | Services/Src/ModbusService.cpp:450-487 | short, damaged and foreign frames are met with silence and change no register or setting |
| `ModbusNumbers.AddressExactly` | Services/Src/ModbusService.cpp:469-507 | an undamaged frame is dispatched if it is broadcast or carries the configured id (the old address while the id is invalid), and met with silence otherwise |
| `ModbusNumbers.BroadcastIsCarriedOut` | Services/Src/ModbusService.cpp:481-487 | an acceptable broadcast write changes exactly the registers it names, in silence |
| `ModbusNumbers.FramesAreReported` | Services/Src/ModbusService.cpp:450-467 | every frame of at least four bytes is reported once, as valid or as damaged, for whomever it is |
| `ModbusSlave.ResponseDiscipline` | Services/Src/ModbusService.cpp:450-687 | at most one send, none to a broadcast; every reply passes the CRC test and carries the address asked; bit 7 marks exactly the refusals, which have changed nothing |
| `ModbusNumbers.RefusalsInNumbers` | Services/Src/ModbusService.cpp:499-507 | code 2 for bad ranges and counts, 1 for functions other than 3, 4, 6 and 16, under the function with bit 7 set; writes too short are dropped |
| `ModbusNumbers.HoldingInNumbers` | Services/Src/ModbusService.cpp:509-547 | FC03 from the bytes of request and reply: done if and only if 1 to 125 registers below 128 are asked for, and answered with them, high bytes first |
| `ModbusNumbers.InputInNumbers` | Services/Src/ModbusService.cpp:549-589 | the same for FC04, after the refresh |
| `ModbusNumbers.WritesInNumbers` | Services/Src/ModbusService.cpp:591-672 | FC06 and FC16 from the bytes of the request: when they are done, what each register then holds, and the echo |
| `ModbusNumbers.FieldsInNumbers` | Services/Src/ModbusService.cpp:511-515 | start and quantity are the words in bytes 2 to 5 |
| `ModbusSlave.DamageIsInert` | Services/Src/ModbusService.cpp:456-465 | a frame damaged by an odd number of flips, at most three, or a burst within 16 bits is only counted |
| `ModbusRegisters.HoldingIsRead` | Services/Src/ModbusService.cpp:509-547 | FC03 is answered exactly for readable ranges, in `5 + 2 * n <= 255` bytes that carry the register values (0x32 the line rate), and changes nothing |
| `ModbusRegisters.InputIsRead` | Services/Src/ModbusService.cpp:549-589 | FC04 likewise, after refreshing the live inputs |
| `ModbusRegisters.RefreshIsLocal` | Services/Src/ModbusService.cpp:413-448 | the refresh touches the registers 0x05 and 0x20 and the diagnostic mirror only |
| `ModbusRegisters.RefreshShows` | Services/Src/ModbusService.cpp:413-448 | the refresh shows 600 in 0x20, and in 0x05 whether 250 exceeds the signed register 0x26, and mirrors the faults in both tables |
| `ModbusRegisters.WriteIsExact` | Services/Src/ModbusService.cpp:591-672 | FC06 and FC16 are done exactly when acceptable, are then echoed, and change exactly the addressed registers, unless an FC16 covers the command register |
| `ModbusRegisters.ReadAfterWrite` | Services/Src/ModbusService.cpp:137-148 | an FC03 after an accepted write decodes to exactly the written values where written, the old ones elsewhere, the line rate at 0x32 |
| `ModbusRegisters.ArgumentsCarried` | Services/Src/ModbusService.cpp:865-877 | a command claims no more arguments than its request carried if and only if it wrote more than one register, and exactly as many if and only if it wrote from register 0; a lone command write claims 255 |
| `ModbusRegisters.ArgumentsAreWritten` | Services/Src/ModbusService.cpp:650-656 | which words of the request the command sees as arguments |
| `ModbusRegisters.SensorSettings` | Services/Src/ModbusService.cpp:865-911 | the sensor command over the wire is all or nothing, and what it stored both tables show afterwards: identity, texts, alarm registers and, from 71 words on, limits; the command register is cleared |
| `ModbusRegisters.StaleArguments` | Services/Src/ModbusService.cpp:871-877 | a lone write of the sensor command stores what the argument registers held before |
| `ModbusRegisters.BaseSettings` | Services/Src/ModbusService.cpp:865-911 | the base command over the wire: what is taken over, marked, published, and the new address |
| `ModbusNumbers.OtherCommands` | Services/Src/ModbusService.cpp:884-907 | 0x3607 and 0x3482 publish everything and change no setting; unknown commands change nothing |
| `ModbusRegisters.CommandIsCleared` | Services/Src/ModbusService.cpp:907 | after any command its register is 0 |
| `ModbusRegisters.OnlyCommandsConfigure` | Services/Src/ModbusService.cpp:450-672 | only an undamaged, acceptable FC16 over register 1 can change a setting or a save flag |
| `ModbusRegisters.SettingsAreSafe` | Services/Src/ModbusService.cpp:450-672 | over every run without such a frame settings never change, and at most one valid reply leaves per frame |
| `ModbusRegisters.AddressFollowsId` | Services/Src/ModbusService.cpp:469-479 | after any undamaged frame the slave answers under its configured id, whenever valid |
| `ModbusMaster.ReadIsUnderstood` | Services/Src/ModbusService.cpp:456-522 | every in-range FC03 request a master builds is accepted as intact, for us, with the start and quantity meant, whatever lies behind it in the buffer |
| `ModbusMaster.WriteIsUnderstood` | Services/Src/ModbusService.cpp:456-482 | every in-range FC16 request a master builds is acceptable and carries the words meant, whatever lies behind it in the buffer |
| `ModbusMaster.WriteThenRead` | Services/Src/ModbusService.cpp:509-672 | over the wire, words written anywhere but at the command and baud rate registers are read back exactly; both requests are answered and no other register changes |
| `ModbusMaster.PackageOverWire` | Services/Src/ModbusService.cpp:865-911 | written from register 1, behind the command, a package arrives whole as the arguments and is counted one short |
| `ModbusMaster.PackageFromZero` | Services/Src/ModbusService.cpp:865-911 | written from register 0, behind any word and the command, a package arrives whole and is counted in full |
| `ModbusService.Service.ProcessFrame` | Services/Src/ModbusService.cpp:450-507 | tables, settings, counters, address and transmissions change as the function `Processed` says; a missing frame changes nothing |
| `ModbusService.Service.ProcessReadHolding` | Services/Src/ModbusService.cpp:509-547 | the reply built in the response buffer is the specified one |
| `ModbusService.Service.ProcessReadInput` | Services/Src/ModbusService.cpp:549-589 | the same for input registers |
| `ModbusService.Service.ProcessWriteSingle` | Services/Src/ModbusService.cpp:591-624 | writes the register and echoes six bytes |
| `ModbusService.Service.ProcessWriteMultiple` | Services/Src/ModbusService.cpp:626-672 | writes the range, echoes, then runs the command |
| `ModbusService.Service.RunCommand` | Services/Src/ModbusService.cpp:865-911 | dispatches a covered command register, publishes on acknowledgement, clears it |
| `ModbusService.Service.SendErrorResponse` | Services/Src/ModbusService.cpp:674-687 | sends address, function with bit 7, code and CRC |
| `ModbusPipeline.Endpoint.Process` | Services/Src/ModbusService.cpp:72-85 | one round polls, fetches, queues, takes and processes as specified |
| `ModbusPipeline.QueueingReports` | Services/Src/ModbusService.cpp:689-726 | a fetched frame waits behind at most nine others; behind ten it is lost, counted and reported as an overflow |
| `ModbusPipeline.RoundDrains` | Services/Src/ModbusService.cpp:72-85 | a round on an empty queue processes at once what it fetched and leaves the queue empty |
| `ModbusPipeline.StreamIsProcessed` | Services/Src/ModbusService.cpp:72-85 | over every interleaving the queue is empty after each round, no overflow is reported, each fetched frame is processed exactly once in order, and with at most 256 bytes ever unread the frames laid end to end are a prefix of the bytes received |
| `ModbusExchange.FrameStaysWhole` | Services/Src/ModbusService.cpp:72-85 | fewer than 256 bytes that arrive on a settled line, among rounds, polls and timer expiries that do not break them, are never split or joined: whatever follows but a byte, they wait whole or have been processed, once and as that one frame |
| `ModbusExchange.FrameIsProcessed` | Legacy/Src/uart.cpp:379-437 | they are processed in either way a frame can end, whatever lies between: IDLE interrupt, then timer, then a round; or a running deadline and a round at least 3 ms after its start |
| `ModbusExchange.HardwareEnds` | Legacy/Src/uart.cpp:424-437 | IDLE interrupt, timer and round end a frame at once |
| `ModbusExchange.SilenceEnds` | Legacy/Src/uart.cpp:379-414 | a poll that notices unread bytes and a round 3 ms later end it, whatever lies between |
| `ModbusExchange.RoundsEnd` | Services/Src/ModbusService.cpp:72-85 | so do two rounds 3 ms apart, whatever lies between |
| `ModbusExchange.PrematureFlagBlocks` | Legacy/Src/uart.cpp:379-414 | timer expiries before every round, without an interrupt, keep a frame from ending for as long as they go on |
| `ModbusExchange.FollowRun` | Services/Src/ModbusService.cpp:72-85 | following events one by one is continuing a run, so exchanges extend any run that ends settled |
| `ModbusExchange.BeginIsSettled` | Services/Src/ModbusService.cpp:36-56 | the firmware starts settled, so exchanges can follow from the start |
| `ModbusExchange.ReadIsAnswered` | Services/Src/ModbusService.cpp:509-547 | an FC03 request that so arrives and ends is answered, once, with the registers' values |
| `ModbusExchange.WriteIsAnswered` | Services/Src/ModbusService.cpp:626-672 | an FC16 request outside the command register that so arrives and ends is answered once and changes exactly the registers it names |
| `DeviceTypes.SettingsRoundTrip` | Config/Inc/Config_Manager.h:38-59 | the settings structure survives packing and unpacking |
| `DeviceTypes.SettingsInverse` | Config/Inc/Config_Manager.h:38-59 | every image of the settings structure is the image of what is read from it |
| `DeviceTypes.SensorRoundTrip` | Config/Inc/sensortypes.h:11-100 | so does the sensor structure |
| `DeviceTypes.SensorInverse` | Config/Inc/sensortypes.h:11-100 | so is every image of the sensor structure |
| `DeviceTypes.SettingsLayout` | Config/Inc/Config_Manager.h:38-59 | at which byte of the packed image each member of the settings lies, lowest byte first |
| `DeviceTypes.SensorLayout` | Config/Inc/sensortypes.h:11-100 | and each member of the sensor data |
| `Layout.LowestFirst` | Config/Inc/Config_Manager.h:38-59 | words and double words are stored lowest byte first |
| `DeviceConfig.DefaultsAreValid` | Config/Src/config_manager.c:34-82 | the defaults are a valid runtime configuration |
| `DeviceConfig.LiveIsValid` | App/Src/ConfigManager.cpp:104-119 | whatever bytes are read, what becomes live is valid |
| `DeviceConfig.SavedIsRestored` | App/Src/ConfigManager.cpp:36-119 | a saved image loads as the configuration saved if and only if that is valid at run time |
| `DeviceConfig.RestoredExactly` | App/Src/ConfigManager.cpp:36-119 | a sector is restored as a configuration if and only if it holds exactly that configuration's image and the configuration is valid |
| `DeviceConfig.RestoredInNumbers` | App/Src/ConfigManager.cpp:47-87 | which saved configurations are restored, every limit as a number |
| `DeviceConfig.SettingsSurvive` | App/Src/ConfigManager.cpp:47-70 | in a valid configuration key, id and baud rate may be replaced by exactly these values |
| `DeviceConfig.SensorSurvives` | App/Src/ConfigManager.cpp:70-86 | and type, model, factor, unit and gas by these |
| `DeviceConfig.ImageInNumbers` | App/Src/ConfigManager.cpp:129-146 | where the image keeps settings, sensor data and CRC |
| `DeviceConfig.RestoredHasKey` | App/Src/ConfigManager.cpp:36-45 | whatever is restored holds 0xABCD1234 at bytes 8 to 11, lowest byte first |
| `DeviceConfig.ErasedIsDefaults` | App/Src/ConfigManager.cpp:104-119 | an erased sector leads to the defaults |
| `DeviceConfig.DefaultSettingsInNumbers` | Config/Src/config_manager.c:34-62 | the default settings as numbers |
| `DeviceConfig.DefaultSensorInNumbers` | Config/Src/config_manager.c:64-82 | the default sensor data as numbers |
| `DeviceConfig.ImageDetermines` | App/Src/ConfigManager.cpp:129-147 | different configurations have different images |
| `DeviceConfig.DamageIsDetected` | App/Src/ConfigManager.cpp:36-45 | an image with an odd number of flipped bits, at most three, or a burst within 16 bits leads to the defaults |
| `FlashStorage.Flash.EraseConfigSector` | Services/Src/FlashStorage.cpp:66-87 | succeeds if and only if every hardware operation it awaits succeeds, and then leaves the sector all ones; a failing erase may leave anything |
| `FlashStorage.Flash.Write` | Services/Src/FlashStorage.cpp:89-132 | success means the data can be read back and nothing else changed; aligned writes to erased memory succeed whenever every hardware operation does; even a failing write changes only the words of its data; the flash is locked again on every path |
| `FlashStorage.Flash.ProgramWords` | Services/Src/FlashStorage.cpp:109-126 | the word loop clears exactly the bits the data clear; aligned, it fails only if a hardware operation does |
| `FlashStorage.Flash.Verify` | Services/Src/FlashStorage.cpp:145-153 | true exactly if the range lies in the sector and holds the data |
| `ConfigManager.Store.SetDefaults` | Config/Src/config_manager.c:34-82 | the assignments and the loop produce the default configuration |
| `ConfigManager.Manager.SaveDeviceConfig` | App/Src/ConfigManager.cpp:129-147 | success means the sector holds exactly the image of the live configuration, and follows whenever no hardware operation fails |
| `ConfigManager.Manager.LoadOrDefaults` | App/Src/ConfigManager.cpp:104-119 | whatever the sector holds and whichever operation fails, the live configuration is valid and the manager's copy equals it; an intact valid one is restored without touching the flash; otherwise the defaults are live, and stored unless an operation fails |
| `ConfigManager.SaveThenRestart` | App/Src/ConfigManager.cpp:104-147 | a valid configuration is saved unless a hardware operation fails, and once saved is live again after the next start, the flash unchanged |
| `LcdPrinter.Display.WriteFixed` | Drivers/Src/LcdDisplay.cpp:277-328 | the buffer holds the specified text, complete: no buffer-full guard ever truncates it |
| `LcdPrinter.Display.ComputePow10` | Drivers/Src/LcdDisplay.cpp:163-171 | the loop computes the power of ten modulo 2^32, which is exact for the exponents the printer uses |
| `LcdPrinter.LengthBound` | Drivers/Src/LcdDisplay.cpp:277-328 | no text is longer than the buffer allows |
| `LcdPrinter.RoundTrip` | Drivers/Src/LcdDisplay.cpp:277-328 | for every 32-bit value, the least included, parsing the text gives back exactly the value at its scale |
| `LcdPrinter.TextDetermines` | Drivers/Src/LcdDisplay.cpp:277-328 | different values never print alike at one scale |
| `LcdPrinter.OnlyText` | Drivers/Src/LcdDisplay.cpp:277-328 | the text is the only one that reads as the value and has no superfluous zero and no sign on zero |
| `LcdPrinter.FixedIsCanonical` | Drivers/Src/LcdDisplay.cpp:286 | it has none, and starts with a minus sign if and only if the value is negative |
| `ErrorManager.Manager.Process` | Services/Src/ErrorManager.cpp:46-70 | raises the request and the latch from counters, with the 8-bit sum |
| `ErrorManager.Manager.ReportI2cRecovery` | Services/Src/ErrorManager.cpp:132-147 | the effect of a reported recovery on counters and flags |
| `ErrorManager.StreaksCounted` | Services/Src/ErrorManager.cpp:72-164 | each consecutive counter is the length of its streak in the history, saturated at 255 |
| `ErrorManager.LengthSteps` | Services/Src/ErrorManager.cpp:72-164 | which reports lengthen each streak and which end it |
| `ErrorManager.TotalsCounted` | Services/Src/ErrorManager.cpp:102-159 | each of the six totals is the number of its reports since `initialize`, saturated at 255 |
| `ErrorManager.RefusalsCounted` | Services/Src/ErrorManager.cpp:72-100 | so is the count of refused transfers since the last success |
| `ErrorManager.FatalExactly` | Services/Src/ErrorManager.cpp:46-70 | the fault is fatal if and only if 2 failed recoveries, 5 overflows or 3 failed saves ever stood unbroken; it never clears in between |
| `ErrorManager.RequestExactly` | Services/Src/ErrorManager.cpp:46-180 | over every history, a request is pending if and only if the counters were once looked at and alarming and nothing has withdrawn it since |
| `ErrorManager.DoneExactly` | Services/Src/ErrorManager.cpp:132-180 | a recovery is on record if and only if one was reported successful or marked done |
| `ErrorManager.FlagsSettle` | Services/Src/ErrorManager.cpp:171-180 | clearing and marking done withdraw the request; no event takes the fatal fault back |
| `ErrorManager.RequestAfterRecovery` | Services/Src/ErrorManager.cpp:132-147 | right after a successful recovery a request is pending if and only if at least 3 sensor failures stand |
| `ErrorManager.RequestAfterFailures` | Services/Src/ErrorManager.cpp:102-107 | a third or later sensor failure in a row leaves a request pending |
| `ErrorManager.RequestAfterI2cError` | Services/Src/ErrorManager.cpp:46-55 | exactly when an I2C error leaves a request pending, with the sum modulo 256 |
| `ErrorManager.SevereSumWraps` | Services/Src/ErrorManager.cpp:48-49 | after 255 timeouts one bus error raises no request |
| `ErrorManager.SevereSumWrapsForExample` | Services/Src/ErrorManager.cpp:48-49 | a run of 255 timeouts, a cleared request and one bus error in which this shows |
| `SensorService.Poller.Process` | Services/Src/SensorService.cpp:47-64 | one call makes the specified step and the specified reports |
| `SensorService.Poller.HandleTrigger` | Services/Src/SensorService.cpp:66-88 | trigger state: waits, triggers, reports, schedules |
| `SensorService.Poller.HandleRead` | Services/Src/SensorService.cpp:90-150 | read state: waits 20 ms, reads, judges plausibility, reports, schedules |
| `SensorService.ReadInNumbers` | Services/Src/SensorService.cpp:90-150 | what a due read makes of the six bytes: which word is which, the four implausible values, the delays of 20, 100 and 1000 ms, and the reports |
| `SensorService.TriggerInNumbers` | Services/Src/SensorService.cpp:66-88 | what a due trigger does, with its delays of 50 and 100 ms |
| `SensorService.GapsInNumbers` | Services/Src/SensorService.cpp:66-150 | how long each action keeps the next one waiting: 20, 50, 100 or 1000 ms |
| `SensorService.StartsAtOnce` | Services/Src/SensorService.cpp:32-45 | a fresh service triggers at its first call |
| `SensorService.CyclePaced` | Services/Src/SensorService.cpp:47-150 | over every nondecreasing clock and every bus behaviour, reads and successful triggers strictly alternate, each after its delay |
| `SensorService.ReadsWait` | Services/Src/SensorService.cpp:90-97 | no read within 20 ms of its trigger |
| `SensorService.SuccessesApart` | Services/Src/SensorService.cpp:90-150 | two successful measurements are at least 1020 ms apart |
| `SensorService.DueAfterGap` | Services/Src/SensorService.cpp:66-97 | an action is due only after its delay, and then is for the next 2^31 ms |
| `Ticks.ClockWraps` | Services/Src/SensorService.cpp:66-97 | the clock starts over after 2^32 ms |
| `SensorService.FailuresCounted` | Services/Src/ErrorManager.cpp:102-112 | the failure counter is the number of failed reads since the last good one, saturated |
| `SensorService.RecoveryAfterThreeFailures` | Services/Src/SensorService.cpp:90-150 | right after a third or later failed read in a row a recovery request is pending |

## Left out

- Hardware set-up and register polling (clocks, GPIO, DMA, SPI, I2C, ADC, watchdog, interrupt control): replaced by parameters or arbitrary results.
- The t3.5 timer between the IDLE interrupt and the ready flag: a step that may set the flag at any time, which covers every timing.
- Interrupts in the middle of a driver call: a poll, a fetch or a round of `process` is one step; runs interleave these steps with bytes and interrupts in every order.
- `UART_RxRead`, `simulateReceive` and the driver's unused member buffers; a busy transmitter (`UART_Send`): what is handed over counts as sent.
- SensorService.Poller.HandleRead: `MedianFilter` (its body is not part of this model), the register update and the display after a good reading.
- SensorService.Poller.Process: the same.
- The LCD pins.
- RegisterMap.SyncHolding: the four registers computed in floating point (0x23, 0x24, 0x53, 0x70) are parameters, so the statement holds for whatever they are.
- RegisterMap.SyncInput: the same four registers.
- SettingsCommands.SaveSensorSettings: the doubles it stores are parameters and opaque bytes, so the statement holds for whatever they are.
- SettingsCommands.Judge: whether a hysteresis exceeds half its level is decided in exact arithmetic, and left open when the two are equal; unequal sides differ by more than 1e-12 of their size, far above the rounding error of doubles.
- ModbusExchange.FrameIsProcessed: a frame that an interrupt or a marking poll breaks while it arrives is covered by `ModbusPipeline.StreamIsProcessed` only, which does not speak of frame boundaries.
- `updateRegisters`, `sensorUpdate`, `initialize` and the plain register accessors beyond their use in replies: easy members.
- `Config_LoadFromFlash` and the other functions of the older configuration module except the defaults and the CRC, which is the same loop as `crc16`.
- `PwmOutput`, build-date helpers (their results are parameters) and everything of the display but the number printer.
- FlashStorage.InConfigSector: address and size are unbounded integers, so the 32-bit wrap of their sum in the firmware's own check is not shown; all calls in the firmware use the sector's constants.
- ModbusService.Service.ProcessFrame: frames are passed as values with all 256 bytes of their buffer, so that short reads see the bytes left over from earlier frames.
- ModbusPipeline.Endpoint.Process: queue, scratch buffers and service are separate objects here and one object in the firmware; they are never shared.
- ErrorManager.Manager.Process: the firmware's I2C counters, totals and flags are separate fields and are grouped in records here.
- CrcDistance.FewFlipsDetected: states the guarantee up to 4095 bytes, beyond which two flips can cancel; `CrcDistance.TwoFlips` gives the exact condition for two flips at every length.
