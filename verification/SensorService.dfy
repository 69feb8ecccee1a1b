/** The trigger/read cycle of the sensor service on the wrapping millisecond clock. */
module SensorService {
  import opened Ticks
  import opened Sht3x
  import Crc8
  import ErrorManager

  const MEASURE_PERIOD_MS: nat := 1000
  const MEASURE_DELAY_MS: nat := 20
  const RETRY_MS: nat := 100
  const BUS_RETRY_MS: nat := 50

  datatype Cycle = Trigger | Read

  datatype Service = Service(
    cycle: Cycle, nextTrigger: nat, measurementStart: nat, rawTemperature: bv16, rawHumidity: bv16)

  const INITIAL := Service(Trigger, 0, 0, 0, 0)

  /** What the bus would answer to the command and to the read, should they be issued now. */
  datatype Bus = Bus(trigger: I2cStatus, read: BusRead)

  type Answering = b: Bus | |b.read.frame| == 6 witness Bus(Ok, BusRead(Ok, [0, 0, 0, 0, 0, 0]))

  /** What one call of `process` does on the bus. */
  datatype Action =
    | Wait
    | Triggered(status: I2cStatus)
    | ReadOut(status: I2cStatus, plausible: bool)

  function ReadStatus(bus: BusRead): I2cStatus
    requires WellFormed(bus)
  {
    if bus.status != Ok then bus.status else if WordsPass(bus.frame) then Ok else BusError
  }

  predicate Plausible(temperature: bv16, humidity: bv16) {
    humidity != 0xFFFF && humidity != 0 && temperature != 0xFFFF && temperature != 0
  }

  predicate Success(a: Action) {
    a == ReadOut(Ok, true)
  }

  predicate FailedRead(a: Action) {
    a.ReadOut? && !Success(a)
  }

  predicate Due(s: Service, now: nat) {
    match s.cycle
    case Trigger => Reached(now, s.nextTrigger)
    case Read => Elapsed(now, s.measurementStart) >= MEASURE_DELAY_MS
  }

  function ActionAt(s: Service, now: nat, bus: Answering): Action {
    if !Due(s, now) then Wait
    else
      match s.cycle
      case Trigger => Triggered(bus.trigger)
      case Read =>
        ReadOut(ReadStatus(bus.read), var next := AfterRead(s, bus); Plausible(next.rawTemperature, next.rawHumidity))
  }

  /** The raw words are overwritten by every good read, plausible or not. */
  function AfterRead(s: Service, bus: Answering): Service {
    if ReadStatus(bus.read) != Ok then s
    else
      var frame := bus.read.frame;
      s.(rawTemperature := BigEndian(frame[0], frame[1]), rawHumidity := BigEndian(frame[3], frame[4]))
  }

  /** How long the next action has to wait after this one. */
  function Gap(a: Action): nat {
    match a
    case Wait => 0
    case Triggered(status) =>
      if status == Ok then MEASURE_DELAY_MS else if status == BusError then BUS_RETRY_MS else RETRY_MS
    case ReadOut(_, _) => if Success(a) then MEASURE_PERIOD_MS else RETRY_MS
  }

  function After(s: Service, now: nat, bus: Answering): Service {
    var a := ActionAt(s, now, bus);
    match a
    case Wait => s
    case Triggered(status) =>
      if status == Ok then s.(measurementStart := now, cycle := Read)
      else s.(nextTrigger := Tick(now + Gap(a)))
    case ReadOut(_, _) => AfterRead(s, bus).(nextTrigger := Tick(now + Gap(a)), cycle := Trigger)
  }

  /** What the error manager is told. */
  function Reports(a: Action): seq<ErrorManager.Event> {
    match a
    case Wait => []
    case Triggered(status) => if status == Ok then [ErrorManager.I2cSuccess] else [ErrorManager.I2cError(status)]
    case ReadOut(status, plausible) =>
      if status != Ok then [ErrorManager.I2cError(status), ErrorManager.SensorReadFailure]
      else if !plausible then [ErrorManager.I2cSuccess, ErrorManager.SensorReadFailure]
      else [ErrorManager.I2cSuccess, ErrorManager.SensorReadSuccess]
  }

  function Told(c: ErrorManager.Condition, events: seq<ErrorManager.Event>): ErrorManager.Condition {
    if events == [] then c
    else ErrorManager.After(Told(c, events[..|events| - 1]), events[|events| - 1])
  }

  class Poller {
    var state: Cycle
    var nextTriggerTimeMs: nat
    var measurementStartMs: nat
    var rawTemperature: bv16
    var rawHumidity: bv16
    const errors: ErrorManager.Manager

    ghost function State(): Service
      reads this
    {
      Service(state, nextTriggerTimeMs, measurementStartMs, rawTemperature, rawHumidity)
    }

    constructor (errors: ErrorManager.Manager)
      ensures State() == INITIAL && this.errors == errors
    {
      state, nextTriggerTimeMs, measurementStartMs := Trigger, 0, 0;
      rawTemperature, rawHumidity := 0, 0;
      this.errors := errors;
    }

    method Initialize()
      modifies this
      ensures State() == INITIAL
    {
      state, nextTriggerTimeMs, measurementStartMs := Trigger, 0, 0;
      rawTemperature, rawHumidity := 0, 0;
    }

    method Process(nowMs: nat, bus: Answering)
      requires nowMs < TICKS
      modifies this, errors
      ensures State() == After(old(State()), nowMs, bus)
      ensures errors.State() == Told(old(errors.State()), Reports(ActionAt(old(State()), nowMs, bus)))
    {
      match state {
        case Trigger => HandleTrigger(nowMs, bus);
        case Read => HandleRead(nowMs, bus);
      }
    }

    method HandleTrigger(nowMs: nat, bus: Answering)
      requires nowMs < TICKS && state == Trigger
      modifies this, errors
      ensures State() == After(old(State()), nowMs, bus)
      ensures errors.State() == Told(old(errors.State()), Reports(ActionAt(old(State()), nowMs, bus)))
    {
      ToldOne(errors.State(), ErrorManager.I2cSuccess);
      ToldOne(errors.State(), ErrorManager.I2cError(bus.trigger));
      hide ErrorManager.After;
      if !Reached(nowMs, nextTriggerTimeMs) {
        return;
      }
      var status := bus.trigger;
      if status == Ok {
        errors.ReportI2cSuccess();
        measurementStartMs := nowMs;
        state := Read;
        return;
      }
      errors.ReportI2cError(status);
      nextTriggerTimeMs := (nowMs + if status == BusError then 50 else 100) % TICKS;
      state := Trigger;
    }

    method HandleRead(nowMs: nat, bus: Answering)
      requires nowMs < TICKS && state == Read
      modifies this, errors
      ensures State() == After(old(State()), nowMs, bus)
      ensures errors.State() == Told(old(errors.State()), Reports(ActionAt(old(State()), nowMs, bus)))
    {
      ghost var told := errors.State();
      ReadCases(State(), nowMs, bus);
      hide ErrorManager.After, Told, Elapsed, WordsPass, BigEndian, After, ActionAt, Reports;
      if Elapsed(nowMs, measurementStartMs) < MEASURE_DELAY_MS {
        ToldNone(told);
        return;
      }
      var status, temperature, humidity := ReadMeasurement(bus.read, rawTemperature, rawHumidity);
      rawTemperature, rawHumidity := temperature, humidity;
      assert status == ReadStatus(bus.read);
      if status != Ok {
        errors.ReportI2cError(status);
        errors.ReportSensorReadFailure();
        ToldTwo(told, ErrorManager.I2cError(status), ErrorManager.SensorReadFailure);
        nextTriggerTimeMs := (nowMs + 100) % TICKS;
        state := Trigger;
        return;
      }
      errors.ReportI2cSuccess();
      if rawHumidity == 0xFFFF || rawHumidity == 0 || rawTemperature == 0xFFFF || rawTemperature == 0 {
        errors.ReportSensorReadFailure();
        ToldTwo(told, ErrorManager.I2cSuccess, ErrorManager.SensorReadFailure);
        nextTriggerTimeMs := (nowMs + 100) % TICKS;
        state := Trigger;
        return;
      }
      errors.ReportSensorReadSuccess();
      ToldTwo(told, ErrorManager.I2cSuccess, ErrorManager.SensorReadSuccess);
      nextTriggerTimeMs := (nowMs + MEASURE_PERIOD_MS) % TICKS;
      state := Trigger;
    }
  }

  /** The three ways out of the read state, written out. */
  lemma ReadCases(s: Service, now: nat, bus: Answering)
    requires s.cycle == Read
    ensures
      var a, next := ActionAt(s, now, bus), AfterRead(s, bus);
      var status := ReadStatus(bus.read);
      if Elapsed(now, s.measurementStart) < MEASURE_DELAY_MS then After(s, now, bus) == s && Reports(a) == []
      else if status != Ok then
        && After(s, now, bus) == s.(nextTrigger := Tick(now + 100), cycle := Trigger)
        && Reports(a) == [ErrorManager.I2cError(status), ErrorManager.SensorReadFailure]
      else if Plausible(next.rawTemperature, next.rawHumidity) then
        && After(s, now, bus) == next.(nextTrigger := Tick(now + 1000), cycle := Trigger)
        && Reports(a) == [ErrorManager.I2cSuccess, ErrorManager.SensorReadSuccess]
      else
        && After(s, now, bus) == next.(nextTrigger := Tick(now + 100), cycle := Trigger)
        && Reports(a) == [ErrorManager.I2cSuccess, ErrorManager.SensorReadFailure]
  {}

  /** What a due read does, from the six bytes: the first word is the temperature, the second the humidity, and
      neither may be all zeros or all ones. */
  lemma ReadInNumbers(s: Service, now: nat, bus: Answering)
    requires s.cycle == Read
    ensures
      var a, f := ActionAt(s, now, bus), bus.read.frame;
      var t, h := BigEndian(f[0], f[1]), BigEndian(f[3], f[4]);
      if Elapsed(now, s.measurementStart) < 20 then After(s, now, bus) == s && Reports(a) == []
      else if bus.read.status != Ok || Crc8.Crc([f[0], f[1]]) != f[2] || Crc8.Crc([f[3], f[4]]) != f[5] then
        && After(s, now, bus) == s.(nextTrigger := Tick(now + 100), cycle := Trigger)
        && Reports(a) == [ErrorManager.I2cError(if bus.read.status != Ok then bus.read.status else BusError),
                          ErrorManager.SensorReadFailure]
      else if t == 0 || t == 0xFFFF || h == 0 || h == 0xFFFF then
        && After(s, now, bus)
           == s.(rawTemperature := t, rawHumidity := h, nextTrigger := Tick(now + 100), cycle := Trigger)
        && Reports(a) == [ErrorManager.I2cSuccess, ErrorManager.SensorReadFailure]
      else
        && After(s, now, bus)
           == s.(rawTemperature := t, rawHumidity := h, nextTrigger := Tick(now + 1000), cycle := Trigger)
        && Reports(a) == [ErrorManager.I2cSuccess, ErrorManager.SensorReadSuccess]
  {
    hide Elapsed, WordsPass, BigEndian, After, ActionAt, Reports, Crc8.Crc, Tick;
    var f := bus.read.frame;
    ReadCases(s, now, bus);
    WordsPassByBytes(f);
  }

  /** What a due trigger does. */
  lemma TriggerInNumbers(s: Service, now: nat, bus: Answering)
    requires s.cycle == Trigger
    ensures
      var a := ActionAt(s, now, bus);
      if !Reached(now, s.nextTrigger) then After(s, now, bus) == s && Reports(a) == []
      else if bus.trigger == Ok then
        After(s, now, bus) == s.(measurementStart := now, cycle := Read) && Reports(a) == [ErrorManager.I2cSuccess]
      else
        && After(s, now, bus) == s.(nextTrigger := Tick(now + if bus.trigger == BusError then 50 else 100))
        && Reports(a) == [ErrorManager.I2cError(bus.trigger)]
  {
    hide Reached, Tick;
  }

  /** A fresh service triggers at its first call, whenever that is in the first 2^31 ms, and has measured nothing. */
  lemma StartsAtOnce(ms: nat)
    requires ms < 0x8000_0000
    ensures INITIAL.cycle == Trigger && Due(INITIAL, Tick(ms))
    ensures INITIAL.rawTemperature == 0 && INITIAL.rawHumidity == 0
  {}

  /** How long each action keeps the next one waiting. */
  lemma GapsInNumbers(a: Action)
    ensures Gap(a) ==
      match a
      case Wait => 0
      case Triggered(status) => if status == Ok then 20 else if status == BusError then 50 else 100
      case ReadOut(status, plausible) => if status == Ok && plausible then 1000 else 100
  {}

  lemma ToldNone(c: ErrorManager.Condition)
    ensures Told(c, []) == c
  {}

  lemma ToldOne(c: ErrorManager.Condition, e: ErrorManager.Event)
    ensures Told(c, [e]) == ErrorManager.After(c, e)
  {
    hide ErrorManager.After;
    assert [e][..0] == [];
  }

  lemma ToldTwo(c: ErrorManager.Condition, e: ErrorManager.Event, f: ErrorManager.Event)
    ensures Told(c, [e, f]) == ErrorManager.After(ErrorManager.After(c, e), f)
  {
    hide ErrorManager.After;
    assert [e, f][..1] == [e];
    ToldOne(c, e);
  }

  // ----- Whole runs ---------------------------------------------------------------------------------

  /** The service is polled at real times; other parts of the firmware report to the same error manager,
      but only this service reports sensor reads. */
  datatype Step = Process(ms: nat, bus: Answering) | Elsewhere(e: ErrorManager.Event)

  datatype Mark = Mark(ms: nat, action: Action)

  /** `trace` lists every action on the bus with its real time. */
  datatype Log = Log(service: Service, errors: ErrorManager.Condition, trace: seq<Mark>, now: nat)

  function Stepped(log: Log, step: Step): Log {
    match step
    case Elsewhere(e) => log.(errors := ErrorManager.After(log.errors, e))
    case Process(ms, bus) =>
      var a := ActionAt(log.service, Tick(ms), bus);
      Log(After(log.service, Tick(ms), bus), Told(log.errors, Reports(a)),
          if a == Wait then log.trace else log.trace + [Mark(ms, a)], ms)
  }

  function Run(steps: seq<Step>): Log {
    if steps == [] then Log(INITIAL, ErrorManager.CLEARED, [], 0)
    else Stepped(Run(steps[..|steps| - 1]), steps[|steps| - 1])
  }

  /** The clock never runs backwards, and only this service reports sensor reads. */
  ghost predicate Orderly(steps: seq<Step>) {
    forall i :: 0 <= i < |steps| ==>
      match steps[i]
      case Process(ms, _) => Run(steps[..i]).now <= ms
      case Elsewhere(e) => e != ErrorManager.SensorReadFailure && e != ErrorManager.SensorReadSuccess
  }

  lemma OrderlyPrefix(steps: seq<Step>)
    requires steps != [] && Orderly(steps)
    ensures Orderly(steps[..|steps| - 1])
  {
    var before := steps[..|steps| - 1];
    assert forall i :: 0 <= i < |before| ==> before[i] == steps[i] && before[..i] == steps[..i];
  }

  /** A read follows every successful trigger, and nothing else does; each action keeps its distance. */
  ghost predicate Paced(trace: seq<Mark>) {
    && (trace != [] ==> trace[0].action.Triggered?)
    && forall i :: 0 < i < |trace| ==>
        && (trace[i].action.ReadOut? <==> trace[i - 1].action == Triggered(Ok))
        && trace[i].ms >= trace[i - 1].ms + Gap(trace[i - 1].action)
  }

  /** How the service's own variables remember the last action. */
  ghost predicate Remembers(log: Log) {
    if log.trace == [] then log.service.cycle == Trigger
    else
      var last := log.trace[|log.trace| - 1];
      && last.ms <= log.now
      && last.action != Wait
      && (log.service.cycle == Read <==> last.action == Triggered(Ok))
      && (log.service.cycle == Read ==> log.service.measurementStart == Tick(last.ms))
      && (log.service.cycle == Trigger ==> log.service.nextTrigger == Tick(last.ms + Gap(last.action)))
  }

  lemma TickTwice(ms: nat, gap: nat)
    ensures Tick(Tick(ms) + gap) == Tick(ms + gap)
  {}

  /** An action is due only after the gap, and is due from then on for the next 2^31 ms. */
  lemma DueAfterGap(log: Log, ms: nat)
    requires Remembers(log) && log.trace != [] && log.now <= ms
    ensures
      var last := log.trace[|log.trace| - 1];
      && (Due(log.service, Tick(ms)) ==> ms >= last.ms + Gap(last.action))
      && (Gap(last.action) <= ms - last.ms < Gap(last.action) + 0x8000_0000 ==> Due(log.service, Tick(ms)))
  {
    hide Reached, Elapsed, Tick;
    var last := log.trace[|log.trace| - 1];
    if log.service.cycle == Read {
      ElapsedIsDifference(ms, last.ms);
    } else {
      ReachedMeansElapsed(ms, last.ms, Gap(last.action));
    }
  }

  lemma StepPaced(log: Log, step: Step)
    requires Paced(log.trace) && Remembers(log)
    requires step.Process? ==> log.now <= step.ms
    ensures Paced(Stepped(log, step).trace) && Remembers(Stepped(log, step))
  {
    hide Reached, Elapsed, Told, Tick, ReadStatus, Plausible, ErrorManager.After;
    if step.Process? {
      var a := ActionAt(log.service, Tick(step.ms), step.bus);
      TickTwice(step.ms, Gap(a));
      if log.trace != [] && a != Wait {
        DueAfterGap(log, step.ms);
        hide Gap;
        PacedAppend(log.trace, Mark(step.ms, a));
      }
    }
  }

  lemma PacedAppend(trace: seq<Mark>, next: Mark)
    requires Paced(trace) && trace != []
    requires next.action.ReadOut? <==> trace[|trace| - 1].action == Triggered(Ok)
    requires next.ms >= trace[|trace| - 1].ms + Gap(trace[|trace| - 1].action)
    ensures Paced(trace + [next])
  {
    hide Gap;
  }

  /** The measurement protocol: over every nondecreasing clock and every pattern of bus results, reads
      and successful triggers strictly alternate, each at its distance from the one before. */
  lemma {:induction false} CyclePaced(steps: seq<Step>)
    requires Orderly(steps)
    ensures Paced(Run(steps).trace) && Remembers(Run(steps))
  {
    hide Paced, Remembers, Stepped;
    if steps == [] {
      assert Paced([]) && Remembers(Run([])) by { EmptyPaced(); }
    } else {
      OrderlyPrefix(steps);
      CyclePaced(steps[..|steps| - 1]);
      StepPaced(Run(steps[..|steps| - 1]), steps[|steps| - 1]);
    }
  }

  lemma EmptyPaced()
    ensures Paced([]) && Remembers(Run([]))
  {}

  /** No read within 20 ms of its trigger. */
  lemma ReadsWait(steps: seq<Step>, i: nat)
    requires Orderly(steps) && i < |Run(steps).trace| && Run(steps).trace[i].action.ReadOut?
    ensures
      var trace := Run(steps).trace;
      i > 0 && trace[i - 1].action == Triggered(Ok) && trace[i].ms >= trace[i - 1].ms + 20
  {
    CyclePaced(steps);
  }

  lemma {:induction false} MarksInOrder(trace: seq<Mark>, i: nat, j: nat)
    requires Paced(trace) && i <= j < |trace|
    ensures trace[i].ms <= trace[j].ms
  {
    if i < j {
      MarksInOrder(trace, i, j - 1);
    }
  }

  /** Two successful measurements are at least 1020 ms apart. */
  lemma SuccessesApart(steps: seq<Step>, i: nat, j: nat)
    requires Orderly(steps) && i < j < |Run(steps).trace|
    requires Success(Run(steps).trace[i].action) && Success(Run(steps).trace[j].action)
    ensures Run(steps).trace[j].ms >= Run(steps).trace[i].ms + 1020
  {
    CyclePaced(steps);
    var trace := Run(steps).trace;
    assert trace[i + 1].ms >= trace[i].ms + 1000;
    MarksInOrder(trace, i + 1, j - 1);
  }

  // ----- Failed reads and recovery -------------------------------------------------------------------

  /** Failed reads since the last successful one. */
  function FailsInARow(trace: seq<Mark>): nat {
    if trace == [] then 0
    else
      var before, last := trace[..|trace| - 1], trace[|trace| - 1].action;
      if Success(last) then 0 else FailsInARow(before) + if FailedRead(last) then 1 else 0
  }

  lemma ToldStreak(c: ErrorManager.Condition, a: Action)
    ensures Told(c, Reports(a)).streaks.sensorFails ==
      if Success(a) then 0
      else if FailedRead(a) then ErrorManager.Saturated(c.streaks.sensorFails)
      else c.streaks.sensorFails
    ensures FailedRead(a) && Told(c, Reports(a)).streaks.sensorFails >= ErrorManager.SENSOR_FAIL_THRESHOLD
      ==> Told(c, Reports(a)).flags.recoveryRequested
  {
    hide ErrorManager.AfterI2c, ErrorManager.AfterTotals, ErrorManager.IsFatal, Told;
    match a
    case Wait =>
      ToldNone(c);
    case Triggered(status) =>
      ToldOne(c, ErrorManager.I2cSuccess);
      ToldOne(c, ErrorManager.I2cError(status));
    case ReadOut(status, plausible) =>
      if status != Ok {
        ToldTwo(c, ErrorManager.I2cError(status), ErrorManager.SensorReadFailure);
      } else if plausible {
        ToldTwo(c, ErrorManager.I2cSuccess, ErrorManager.SensorReadSuccess);
      } else {
        ToldTwo(c, ErrorManager.I2cSuccess, ErrorManager.SensorReadFailure);
      }
  }

  lemma {:induction false} FailuresCounted(steps: seq<Step>)
    requires Orderly(steps)
    ensures Run(steps).errors.streaks.sensorFails == ErrorManager.Capped(FailsInARow(Run(steps).trace))
  {
    hide ErrorManager.AfterI2c, ErrorManager.AfterTotals, ErrorManager.AfterFlags, After, ActionAt, Told;
    if steps != [] {
      OrderlyPrefix(steps);
      FailuresCounted(steps[..|steps| - 1]);
      var log, step := Run(steps[..|steps| - 1]), steps[|steps| - 1];
      if step.Process? {
        var a := ActionAt(log.service, Tick(step.ms), step.bus);
        ToldStreak(log.errors, a);
        assert (log.trace + [Mark(step.ms, a)])[..|log.trace|] == log.trace;
      }
    }
  }

  /** Right after a third or later failed read in a row, a request to recover the bus is pending. */
  lemma RecoveryAfterThreeFailures(steps: seq<Step>, ms: nat, bus: Answering)
    requires Orderly(steps + [Process(ms, bus)])
    requires FailedRead(ActionAt(Run(steps).service, Tick(ms), bus)) && FailsInARow(Run(steps).trace) >= 2
    ensures Run(steps + [Process(ms, bus)]).errors.flags.recoveryRequested
  {
    hide ErrorManager.After, After, ActionAt, Told, FailedRead;
    var all := steps + [Process(ms, bus)];
    assert all[..|steps|] == steps;
    OrderlyPrefix(all);
    FailuresCounted(steps);
    ToldStreak(Run(steps).errors, ActionAt(Run(steps).service, Tick(ms), bus));
    NotASuccess(ActionAt(Run(steps).service, Tick(ms), bus));
  }

  lemma NotASuccess(a: Action)
    requires FailedRead(a)
    ensures !Success(a)
  {}
}
