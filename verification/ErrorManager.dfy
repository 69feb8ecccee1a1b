/** Fault counting, the request to recover the I2C bus, and the fatal latch that stops the watchdog. */
module ErrorManager {
  import opened Sht3x

  const I2C_RECOVERY_THRESHOLD := 3
  const SENSOR_FAIL_THRESHOLD := 3
  const UART_OVERFLOW_THRESHOLD := 5
  const I2C_RECOVERY_FAIL_THRESHOLD := 2
  const FLASH_SAVE_FAIL_THRESHOLD := 3

  /** An 8-bit counter. */
  type byte = n: int | 0 <= n < 256

  function Saturated(n: byte): byte {
    if n < 255 then n + 1 else n
  }

  /** The I2C error counters, cleared by success. */
  datatype I2cCounts = I2cCounts(timeout: byte, nack: byte, busError: byte)

  /** Counters that only ever grow. */
  datatype Totals = Totals(
    crc: byte, sensorReadFail: byte, uartOverflow: byte,
    i2cRecovery: byte, watchdogReset: byte, flashSaveFail: byte)

  /** Failures in a row. */
  datatype Streaks = Streaks(sensorFails: byte, overflows: byte, recoveryFails: byte, saveFails: byte)

  datatype Flags = Flags(recoveryRequested: bool, recoveryDone: bool, fatalFault: bool)

  datatype Condition = Condition(i2c: I2cCounts, totals: Totals, streaks: Streaks, flags: Flags)

  const CLEARED :=
    Condition(I2cCounts(0, 0, 0), Totals(0, 0, 0, 0, 0, 0), Streaks(0, 0, 0, 0), Flags(false, false, false))

  datatype Event =
    | I2cSuccess
    | I2cError(status: I2cStatus)
    | SensorReadFailure
    | SensorReadSuccess
    | CrcError
    | ValidModbusFrame
    | UartOverflow
    | I2cRecovery(success: bool)
    | WatchdogReset
    | FlashSaveFailure
    | FlashSaveSuccess
    | Process
    | ClearRecoveryRequest
    | MarkRecoveryDone

  // ----- The four streaks ----------------------------------------------------------------------

  datatype Streak = SensorFails | Overflows | RecoveryFails | SaveFails

  predicate Prolongs(k: Streak, e: Event) {
    match k
    case SensorFails => e == SensorReadFailure
    case Overflows => e == UartOverflow
    case RecoveryFails => e == I2cRecovery(false)
    case SaveFails => e == FlashSaveFailure
  }

  predicate Breaks(k: Streak, e: Event) {
    match k
    case SensorFails => e == SensorReadSuccess
    case Overflows => e == ValidModbusFrame
    case RecoveryFails => e == I2cSuccess || e == I2cRecovery(true)
    case SaveFails => e == FlashSaveSuccess
  }

  function Tallied(k: Streak, n: byte, e: Event): byte {
    if Prolongs(k, e) then Saturated(n) else if Breaks(k, e) then 0 else n
  }

  // ----- What each event does --------------------------------------------------------------------

  function AfterStreaks(s: Streaks, e: Event): Streaks {
    Streaks(Tallied(SensorFails, s.sensorFails, e), Tallied(Overflows, s.overflows, e),
            Tallied(RecoveryFails, s.recoveryFails, e), Tallied(SaveFails, s.saveFails, e))
  }

  function AfterI2c(c: I2cCounts, e: Event): I2cCounts {
    match e
    case I2cSuccess => I2cCounts(0, 0, 0)
    case I2cRecovery(success) => if success then I2cCounts(0, c.nack, 0) else c
    case I2cError(status) => (
      match status
      case Timeout => c.(timeout := Saturated(c.timeout))
      case Nack => c.(nack := Saturated(c.nack))
      case BusError => c.(busError := Saturated(c.busError))
      case _ => c)
    case _ => c
  }

  function AfterTotals(t: Totals, e: Event): Totals {
    match e
    case CrcError => t.(crc := Saturated(t.crc))
    case SensorReadFailure => t.(sensorReadFail := Saturated(t.sensorReadFail))
    case UartOverflow => t.(uartOverflow := Saturated(t.uartOverflow))
    case I2cRecovery(_) => t.(i2cRecovery := Saturated(t.i2cRecovery))
    case WatchdogReset => t.(watchdogReset := Saturated(t.watchdogReset))
    case FlashSaveFailure => t.(flashSaveFail := Saturated(t.flashSaveFail))
    case _ => t
  }

  /** The sum of the two severe I2C counters is taken in 8 bits. */
  predicate AsksForRecovery(c: I2cCounts, s: Streaks) {
    (c.timeout + c.busError) % 256 >= I2C_RECOVERY_THRESHOLD || s.sensorFails >= SENSOR_FAIL_THRESHOLD
  }

  predicate IsFatal(s: Streaks) {
    || s.recoveryFails >= I2C_RECOVERY_FAIL_THRESHOLD
    || s.overflows >= UART_OVERFLOW_THRESHOLD
    || s.saveFails >= FLASH_SAVE_FAIL_THRESHOLD
  }

  /** What `process()` does to the flags. */
  function EscalatedFlags(f: Flags, c: I2cCounts, s: Streaks): Flags {
    f.(recoveryRequested := f.recoveryRequested || AsksForRecovery(c, s), fatalFault := f.fatalFault || IsFatal(s))
  }

  /** Which events end in `process()`. */
  predicate Escalates(e: Event) {
    || e.I2cError? || e.SensorReadFailure? || e.UartOverflow?
    || e.I2cRecovery? || e.FlashSaveFailure? || e.Process?
  }

  function AfterFlags(f: Flags, c: I2cCounts, s: Streaks, e: Event): Flags {
    var settled :=
      if e == I2cRecovery(true) || e == MarkRecoveryDone then f.(recoveryRequested := false, recoveryDone := true)
      else if e == ClearRecoveryRequest then f.(recoveryRequested := false)
      else f;
    if Escalates(e) then EscalatedFlags(settled, c, s) else settled
  }

  function After(c: Condition, e: Event): Condition {
    var i2c, streaks := AfterI2c(c.i2c, e), AfterStreaks(c.streaks, e);
    Condition(i2c, AfterTotals(c.totals, e), streaks, AfterFlags(c.flags, i2c, streaks, e))
  }

  // ----- The class ---------------------------------------------------------------------------------

  class Manager {
    var i2c: I2cCounts
    var totals: Totals
    var sensorReadFailsInARow: byte
    var uartOverflowsInARow: byte
    var i2cRecoveryFailsInARow: byte
    var flashSaveFailsInARow: byte
    var recoveryRequested: bool
    var recoveryDone: bool
    var fatalFault: bool

    ghost function State(): Condition
      reads this
    {
      Condition(
        i2c, totals,
        Streaks(sensorReadFailsInARow, uartOverflowsInARow, i2cRecoveryFailsInARow, flashSaveFailsInARow),
        Flags(recoveryRequested, recoveryDone, fatalFault))
    }

    /** What the register mirror reads. */
    method Current() returns (c: Condition)
      ensures c == State()
    {
      c := Condition(
        i2c, totals,
        Streaks(sensorReadFailsInARow, uartOverflowsInARow, i2cRecoveryFailsInARow, flashSaveFailsInARow),
        Flags(recoveryRequested, recoveryDone, fatalFault));
    }

    constructor ()
      ensures State() == CLEARED
    {
      i2c, totals := I2cCounts(0, 0, 0), Totals(0, 0, 0, 0, 0, 0);
      sensorReadFailsInARow, uartOverflowsInARow := 0, 0;
      i2cRecoveryFailsInARow, flashSaveFailsInARow := 0, 0;
      recoveryRequested, recoveryDone, fatalFault := false, false, false;
    }

    method Initialize()
      modifies this
      ensures State() == CLEARED
    {
      i2c, totals := I2cCounts(0, 0, 0), Totals(0, 0, 0, 0, 0, 0);
      sensorReadFailsInARow, uartOverflowsInARow := 0, 0;
      i2cRecoveryFailsInARow, flashSaveFailsInARow := 0, 0;
      recoveryRequested, recoveryDone, fatalFault := false, false, false;
    }

    method Process()
      modifies this
      ensures State() == old(State()).(flags :=
        EscalatedFlags(old(State().flags), old(State().i2c), old(State().streaks)))
    {
      var severeI2cCount := (i2c.timeout + i2c.busError) % 256;
      if severeI2cCount >= I2C_RECOVERY_THRESHOLD {
        recoveryRequested := true;
      }
      if sensorReadFailsInARow >= SENSOR_FAIL_THRESHOLD {
        recoveryRequested := true;
      }
      if i2cRecoveryFailsInARow >= I2C_RECOVERY_FAIL_THRESHOLD {
        fatalFault := true;
      }
      if uartOverflowsInARow >= UART_OVERFLOW_THRESHOLD {
        fatalFault := true;
      }
      if flashSaveFailsInARow >= FLASH_SAVE_FAIL_THRESHOLD {
        fatalFault := true;
      }
    }

    method ReportI2cSuccess()
      modifies this
      ensures State() == After(old(State()), I2cSuccess)
    {
      i2c := I2cCounts(0, 0, 0);
      i2cRecoveryFailsInARow := 0;
    }

    method ReportI2cError(status: I2cStatus)
      modifies this
      ensures State() == After(old(State()), I2cError(status))
    {
      hide AsksForRecovery, IsFatal;
      match status {
        case Timeout => i2c := i2c.(timeout := Saturated(i2c.timeout));
        case Nack => i2c := i2c.(nack := Saturated(i2c.nack));
        case BusError => i2c := i2c.(busError := Saturated(i2c.busError));
        case _ =>
      }
      Process();
    }

    method ReportSensorReadFailure()
      modifies this
      ensures State() == After(old(State()), SensorReadFailure)
    {
      hide AsksForRecovery, IsFatal;
      totals := totals.(sensorReadFail := Saturated(totals.sensorReadFail));
      sensorReadFailsInARow := Saturated(sensorReadFailsInARow);
      Process();
    }

    method ReportSensorReadSuccess()
      modifies this
      ensures State() == After(old(State()), SensorReadSuccess)
    {
      sensorReadFailsInARow := 0;
    }

    method ReportCrcError()
      modifies this
      ensures State() == After(old(State()), CrcError)
    {
      totals := totals.(crc := Saturated(totals.crc));
    }

    method ReportValidModbusFrame()
      modifies this
      ensures State() == After(old(State()), ValidModbusFrame)
    {
      uartOverflowsInARow := 0;
    }

    method ReportUartOverflow()
      modifies this
      ensures State() == After(old(State()), UartOverflow)
    {
      hide AsksForRecovery, IsFatal;
      totals := totals.(uartOverflow := Saturated(totals.uartOverflow));
      uartOverflowsInARow := Saturated(uartOverflowsInARow);
      Process();
    }

    method ReportI2cRecovery(success: bool)
      modifies this
      ensures State() == After(old(State()), I2cRecovery(success))
    {
      hide AsksForRecovery, IsFatal;
      totals := totals.(i2cRecovery := Saturated(totals.i2cRecovery));
      if success {
        i2c := i2c.(timeout := 0);
        i2c := i2c.(busError := 0);
        i2cRecoveryFailsInARow := 0;
        recoveryRequested := false;
        recoveryDone := true;
      } else {
        i2cRecoveryFailsInARow := Saturated(i2cRecoveryFailsInARow);
      }
      Process();
    }

    method ReportWatchdogReset()
      modifies this
      ensures State() == After(old(State()), WatchdogReset)
    {
      totals := totals.(watchdogReset := Saturated(totals.watchdogReset));
    }

    method ReportFlashSaveFailure()
      modifies this
      ensures State() == After(old(State()), FlashSaveFailure)
    {
      hide AsksForRecovery, IsFatal;
      totals := totals.(flashSaveFail := Saturated(totals.flashSaveFail));
      flashSaveFailsInARow := Saturated(flashSaveFailsInARow);
      Process();
    }

    method ReportFlashSaveSuccess()
      modifies this
      ensures State() == After(old(State()), FlashSaveSuccess)
    {
      flashSaveFailsInARow := 0;
    }

    method ClearRequest()
      modifies this
      ensures State() == After(old(State()), ClearRecoveryRequest)
    {
      recoveryRequested := false;
    }

    method MarkDone()
      modifies this
      ensures State() == After(old(State()), MarkRecoveryDone)
    {
      recoveryDone := true;
      recoveryRequested := false;
    }

    method ShouldFeedWatchdog() returns (feed: bool)
      ensures feed == !fatalFault
    {
      feed := !fatalFault;
    }
  }

  // ----- Runs since initialize -------------------------------------------------------------------------

  function Run(events: seq<Event>): Condition {
    if events == [] then CLEARED else After(Run(events[..|events| - 1]), events[|events| - 1])
  }

  /** How often a streak was prolonged since it was last broken. */
  function Length(k: Streak, events: seq<Event>): nat {
    if events == [] then 0
    else
      var before, last := events[..|events| - 1], events[|events| - 1];
      if Breaks(k, last) then 0 else Length(k, before) + if Prolongs(k, last) then 1 else 0
  }

  function Capped(n: nat): byte {
    if n < 255 then n else 255
  }

  lemma TallyCounts(k: Streak, events: seq<Event>, n: byte)
    requires events != [] && n == Capped(Length(k, events[..|events| - 1]))
    ensures Tallied(k, n, events[|events| - 1]) == Capped(Length(k, events))
  {}

  lemma {:induction false} StreaksCounted(events: seq<Event>)
    ensures Run(events).streaks ==
      Streaks(Capped(Length(SensorFails, events)), Capped(Length(Overflows, events)),
              Capped(Length(RecoveryFails, events)), Capped(Length(SaveFails, events)))
  {
    hide AfterI2c, AfterTotals, AfterFlags, Tallied;
    if events != [] {
      var s := Run(events[..|events| - 1]).streaks;
      StreaksCounted(events[..|events| - 1]);
      TallyCounts(SensorFails, events, s.sensorFails);
      TallyCounts(Overflows, events, s.overflows);
      TallyCounts(RecoveryFails, events, s.recoveryFails);
      TallyCounts(SaveFails, events, s.saveFails);
    }
  }

  /** What lengthens each streak and what ends it. */
  lemma LengthSteps(events: seq<Event>, e: Event)
    ensures Length(SensorFails, events + [e]) ==
      if e == SensorReadFailure then Length(SensorFails, events) + 1
      else if e == SensorReadSuccess then 0 else Length(SensorFails, events)
    ensures Length(Overflows, events + [e]) ==
      if e == UartOverflow then Length(Overflows, events) + 1
      else if e == ValidModbusFrame then 0 else Length(Overflows, events)
    ensures Length(RecoveryFails, events + [e]) ==
      if e == I2cRecovery(false) then Length(RecoveryFails, events) + 1
      else if e == I2cRecovery(true) || e == I2cSuccess then 0 else Length(RecoveryFails, events)
    ensures Length(SaveFails, events + [e]) ==
      if e == FlashSaveFailure then Length(SaveFails, events) + 1
      else if e == FlashSaveSuccess then 0 else Length(SaveFails, events)
  {
    assert (events + [e])[..|events|] == events;
  }

  /** An 8-bit counter of `n` events stands at 255 from the 255th on. */
  predicate CountOf(count: byte, n: nat) {
    count == if n < 255 then n else 255
  }

  /** The six totals count every report of their kind since `initialize`; nothing ever resets them. */
  predicate TotalsCount(t: Totals, seen: multiset<Event>) {
    && CountOf(t.crc, seen[CrcError])
    && CountOf(t.sensorReadFail, seen[SensorReadFailure])
    && CountOf(t.uartOverflow, seen[UartOverflow])
    && CountOf(t.i2cRecovery, seen[I2cRecovery(true)] + seen[I2cRecovery(false)])
    && CountOf(t.watchdogReset, seen[WatchdogReset])
    && CountOf(t.flashSaveFail, seen[FlashSaveFailure])
  }

  lemma {:induction false} TotalsCounted(events: seq<Event>)
    ensures TotalsCount(Run(events).totals, multiset(events))
  {
    hide AfterI2c, AfterStreaks, AfterFlags;
    if events != [] {
      var before, last := events[..|events| - 1], events[|events| - 1];
      TotalsCounted(before);
      assert events == before + [last];
      assert multiset(events) == multiset(before) + multiset{last};
      TotalStep(Run(before).totals, multiset(before), last);
    }
  }

  lemma TotalStep(t: Totals, seen: multiset<Event>, e: Event)
    requires TotalsCount(t, seen)
    ensures TotalsCount(AfterTotals(t, e), seen + multiset{e})
  {}

  /** What happens to the flags: both ways of settling a recovery withdraw the request, as clearing it does;
      every other event leaves a pending request alone, and no event takes the fatal fault back. */
  lemma FlagsSettle(c: Condition, e: Event)
    ensures e == MarkRecoveryDone || e == ClearRecoveryRequest ==> !After(c, e).flags.recoveryRequested
    ensures
      c.flags.recoveryRequested && e != MarkRecoveryDone && e != ClearRecoveryRequest && e != I2cRecovery(true)
      ==> After(c, e).flags.recoveryRequested
    ensures After(c, e).flags.recoveryDone <==>
      c.flags.recoveryDone || e == MarkRecoveryDone || e == I2cRecovery(true)
    ensures c.flags.fatalFault ==> After(c, e).flags.fatalFault
  {
    hide AfterI2c, AfterStreaks, AfterTotals, AsksForRecovery, IsFatal;
  }

  predicate Critical(events: seq<Event>) {
    || Length(RecoveryFails, events) >= 2
    || Length(Overflows, events) >= 5
    || Length(SaveFails, events) >= 3
  }

  ghost predicate EverCritical(events: seq<Event>) {
    exists n: nat :: n <= |events| && Critical(events[..n])
  }

  lemma EverCriticalStep(events: seq<Event>)
    requires events != []
    ensures EverCritical(events) <==> EverCritical(events[..|events| - 1]) || Critical(events)
  {
    hide Critical;
    var before := events[..|events| - 1];
    assert events[..|events|] == events;
    assert forall n: nat :: n <= |before| ==> before[..n] == events[..n];
    if EverCritical(events) {
      var n: nat :| n <= |events| && Critical(events[..n]);
      assert n <= |before| ==> Critical(before[..n]);
    }
    if EverCritical(before) {
      var n: nat :| n <= |before| && Critical(before[..n]);
      assert Critical(events[..n]);
    }
  }

  /** An event that does not escalate cannot make a history critical. */
  lemma OnlyEscalationIsCritical(events: seq<Event>)
    requires events != [] && Critical(events) && !Escalates(events[|events| - 1])
    ensures Critical(events[..|events| - 1])
  {}

  lemma CriticalIsFatal(events: seq<Event>)
    ensures Critical(events) <==> IsFatal(Run(events).streaks)
  {
    hide Run, Length;
    StreaksCounted(events);
  }

  /** The fault is fatal exactly when, at some point of the history, 2 failed recoveries, 5 overflows
      or 3 failed saves stood unbroken; once fatal it stays so until the next `initialize`. */
  lemma {:induction false} FatalExactly(events: seq<Event>)
    ensures Run(events).flags.fatalFault <==> EverCritical(events)
  {
    hide AfterI2c, AfterStreaks, AfterTotals, Critical, IsFatal;
    CriticalIsFatal(events);
    if events == [] {
      assert events[..0] == [];
      assert !IsFatal(CLEARED.streaks) by { NothingIsFatal(); }
    } else {
      var before := events[..|events| - 1];
      FatalExactly(before);
      CriticalIsFatal(before);
      EverCriticalStep(events);
      assert before[..|before|] == before;
      if Critical(events) && !Escalates(events[|before|]) {
        OnlyEscalationIsCritical(events);
      }
    }
  }

  lemma NothingIsFatal()
    ensures !IsFatal(CLEARED.streaks)
  {}

  lemma RunAppend(events: seq<Event>, e: Event)
    ensures Run(events + [e]) == After(Run(events), e)
  {
    hide After;
    assert (events + [e])[..|events|] == events;
  }

  /** Right after a successful recovery a new request is pending exactly when at least three sensor
      reads in a row have failed. */
  lemma RequestAfterRecovery(events: seq<Event>)
    ensures Run(events + [I2cRecovery(true)]).flags.recoveryRequested
       <==> Length(SensorFails, events) >= 3
  {
    hide Run, AfterTotals;
    RunAppend(events, I2cRecovery(true));
    StreaksCounted(events);
  }

  /** A third or later sensor failure in a row always leaves a request pending. */
  lemma RequestAfterFailures(events: seq<Event>)
    requires Length(SensorFails, events) >= 2
    ensures Run(events + [SensorReadFailure]).flags.recoveryRequested
  {
    hide Run, AfterTotals;
    RunAppend(events, SensorReadFailure);
    StreaksCounted(events);
  }

  /** Severe I2C errors of one kind since they were last cleared. */
  function Severe(status: I2cStatus, events: seq<Event>): nat {
    if events == [] then 0
    else
      var before, last := events[..|events| - 1], events[|events| - 1];
      if last == I2cSuccess || last == I2cRecovery(true) then 0
      else Severe(status, before) + if last == I2cError(status) then 1 else 0
  }

  lemma {:induction false} SevereCounted(events: seq<Event>)
    ensures Run(events).i2c.timeout == Capped(Severe(Timeout, events))
    ensures Run(events).i2c.busError == Capped(Severe(BusError, events))
  {
    hide AfterStreaks, AfterTotals, AfterFlags;
    if events != [] {
      SevereCounted(events[..|events| - 1]);
    }
  }

  /** After an I2C error report a request is pending exactly when one was already, or three sensor reads
      in a row have failed, or the two saturated severe counts sum to 3 or more modulo 256. */
  lemma RequestAfterI2cError(events: seq<Event>, status: I2cStatus)
    ensures
      var all := events + [I2cError(status)];
      Run(all).flags.recoveryRequested <==>
        || Run(events).flags.recoveryRequested
        || Length(SensorFails, events) >= 3
        || (Capped(Severe(Timeout, all)) + Capped(Severe(BusError, all))) % 256 >= 3
  {
    hide Run, AfterTotals, AfterI2c, Capped, Severe, Length, IsFatal;
    var all := events + [I2cError(status)];
    RunAppend(events, I2cError(status));
    StreaksCounted(events);
    CappedReaches(Length(SensorFails, events), 3);
    SevereCounted(all);
  }

  lemma CappedReaches(n: nat, threshold: nat)
    requires threshold <= 255
    ensures Capped(n) >= threshold <==> n >= threshold
  {
  }

  /** So many severe errors need not raise a request: after 255 timeouts and a cleared request, one bus
      error brings the sum to 256, which reads as 0. */
  lemma SevereSumWraps(events: seq<Event>)
    requires Severe(Timeout, events) >= 255 && Severe(BusError, events) == 0
    requires Length(SensorFails, events) < 3
    ensures !Run(events + [ClearRecoveryRequest, I2cError(BusError)]).flags.recoveryRequested
  {
    hide Run, AfterTotals, AfterI2c;
    var cleared := events + [ClearRecoveryRequest];
    assert cleared[..|events|] == events;
    RunAppend(events, ClearRecoveryRequest);
    assert events + [ClearRecoveryRequest, I2cError(BusError)] == cleared + [I2cError(BusError)];
    assert (cleared + [I2cError(BusError)])[..|cleared|] == cleared;
    RequestAfterI2cError(cleared, BusError);
  }

  function Timeouts(n: nat): seq<Event> {
    if n == 0 then [] else Timeouts(n - 1) + [I2cError(Timeout)]
  }

  lemma {:induction false} TimeoutsCount(n: nat)
    ensures Severe(Timeout, Timeouts(n)) == n && Severe(BusError, Timeouts(n)) == 0
    ensures Length(SensorFails, Timeouts(n)) == 0
  {
    if n != 0 {
      TimeoutsCount(n - 1);
      assert Timeouts(n)[..|Timeouts(n)| - 1] == Timeouts(n - 1);
    }
  }

  /** A run in which the wrapped sum shows. */
  lemma SevereSumWrapsForExample()
    ensures !Run(Timeouts(255) + [ClearRecoveryRequest, I2cError(BusError)]).flags.recoveryRequested
  {
    hide Run, Timeouts, Severe, Length;
    TimeoutsCount(255);
    SevereSumWraps(Timeouts(255));
  }

  // ----- The request over whole histories ----------------------------------------------------------------

  /** Reports after which the counters are looked at. */
  predicate LooksAtCounters(e: Event) {
    || e.I2cError? || e == SensorReadFailure || e == UartOverflow || e.I2cRecovery? || e == FlashSaveFailure
    || e == Process
  }

  /** Three failed reads in a row, or three severe I2C errors in the 8-bit sum. */
  predicate Alarming(events: seq<Event>) {
    || Length(SensorFails, events) >= 3
    || (Capped(Severe(Timeout, events)) + Capped(Severe(BusError, events))) % 256 >= 3
  }

  predicate Withdraws(e: Event) {
    e == ClearRecoveryRequest || e == MarkRecoveryDone || e == I2cRecovery(true)
  }

  /** The counters were looked at and alarming at some point, and nothing has withdrawn the request since. */
  ghost predicate AskedAt(events: seq<Event>, n: nat) {
    && 0 < n <= |events| && LooksAtCounters(events[n - 1]) && Alarming(events[..n])
    && forall k :: n <= k < |events| ==> !Withdraws(events[k])
  }

  ghost predicate Asked(events: seq<Event>) {
    exists n: nat :: AskedAt(events, n)
  }

  lemma AskedStep(events: seq<Event>)
    requires events != []
    ensures
      var before, last := events[..|events| - 1], events[|events| - 1];
      Asked(events) <==> (Asked(before) && !Withdraws(last)) || (LooksAtCounters(last) && Alarming(events))
  {
    hide Alarming;
    var m := |events| - 1;
    var before, last := events[..m], events[m];
    assert events[..|events|] == events;
    assert forall n: nat :: n <= m ==> before[..n] == events[..n];
    if Asked(events) {
      var n: nat :| AskedAt(events, n);
      if n <= m {
        assert AskedAt(before, n);
      }
    }
    if Asked(before) && !Withdraws(last) {
      var n: nat :| AskedAt(before, n);
      assert AskedAt(events, n);
    }
    if LooksAtCounters(last) && Alarming(events) {
      assert AskedAt(events, |events|);
    }
  }

  lemma AlarmingAsks(events: seq<Event>)
    ensures Alarming(events) <==> AsksForRecovery(Run(events).i2c, Run(events).streaks)
  {
    hide Run, Length, Severe, Capped;
    StreaksCounted(events);
    SevereCounted(events);
    CappedReaches(Length(SensorFails, events), 3);
  }

  /** A request is pending exactly when at some point of the history the counters were looked at and alarming,
      and no clearing, settling or successful recovery has come since. */
  lemma {:induction false} RequestExactly(events: seq<Event>)
    ensures Run(events).flags.recoveryRequested <==> Asked(events)
  {
    hide AfterI2c, AfterStreaks, AfterTotals, Alarming, AsksForRecovery, IsFatal, Asked;
    if events == [] {
      assert !Asked([]) by { NothingAsked(); }
    } else {
      RequestExactly(events[..|events| - 1]);
      AskedStep(events);
      AlarmingAsks(events);
    }
  }

  lemma NothingAsked()
    ensures !Asked([])
  {}

  /** A recovery is on record exactly when one was ever reported successful or marked done. */
  lemma {:induction false} DoneExactly(events: seq<Event>)
    ensures Run(events).flags.recoveryDone <==> MarkRecoveryDone in events || I2cRecovery(true) in events
  {
    hide AfterI2c, AfterStreaks, AfterTotals, AsksForRecovery, IsFatal;
    if events != [] {
      var before, last := events[..|events| - 1], events[|events| - 1];
      DoneExactly(before);
      assert events == before + [last];
    }
  }

  /** Refused transfers since the last success. */
  function Refusals(events: seq<Event>): nat {
    if events == [] then 0
    else
      var before, last := events[..|events| - 1], events[|events| - 1];
      if last == I2cSuccess then 0 else Refusals(before) + if last == I2cError(Nack) then 1 else 0
  }

  lemma {:induction false} RefusalsCounted(events: seq<Event>)
    ensures CountOf(Run(events).i2c.nack, Refusals(events))
  {
    hide AfterStreaks, AfterTotals, AfterFlags;
    if events != [] {
      RefusalsCounted(events[..|events| - 1]);
    }
  }
}
