/** From the line to the slave: one round of the main loop polls the receiver, queues a finished frame, takes
    one frame from the queue and processes it. */
module ModbusPipeline {
  import opened Ticks
  import opened FrameQueue
  import opened ModbusSlave
  import UartReceiver
  import ErrorManager
  import opened ModbusService

  const SCRATCH: nat := 256

  /** `frame` is the buffer into which frames are taken from the queue. */
  datatype Pipe = Pipe(rx: UartReceiver.Rx, queue: Fifo, frame: FrameItem, slave: Slave)

  ghost predicate Sound(p: Pipe) {
    UartReceiver.InRange(p.rx) && p.frame.Valid() && |p.queue.messages| <= SLOTS
    && forall i :: 0 <= i < |p.queue.messages| ==> |p.queue.messages[i].bytes| <= FRAME_BYTES
  }

  /** The frame, if any, that a poll and a fetch yield now. */
  function FetchedNow(p: Pipe, ms: nat): (bytes: seq<bv8>)
    requires Sound(p)
    ensures |bytes| <= SCRATCH
  {
    UartReceiver.Taken(UartReceiver.Polled(p.rx, ms % TICKS), SCRATCH)
  }

  /** A frame that is not empty is queued; a full queue turns it away, which is reported. */
  function Queued(p: Pipe, bytes: seq<bv8>, us: nat): Pipe {
    if bytes == [] then p
    else p.(queue := Enqueued(p.queue, bytes, us),
            slave := if |p.queue.messages| >= SLOTS then Recorded(p.slave, ErrorManager.UartOverflow) else p.slave)
  }

  function Received(p: Pipe, ms: nat, us: nat): (q: Pipe)
    requires Sound(p)
    ensures Sound(q)
  {
    var rx := UartReceiver.Polled(p.rx, ms % TICKS);
    Queued(p.(rx := UartReceiver.Fetched(rx, SCRATCH)), FetchedNow(p, ms), us)
  }

  function Taken(p: Pipe): FrameItem
    requires Sound(p) && p.queue.messages != []
  {
    p.frame.Filled(p.queue.messages[0].bytes, p.queue.messages[0].timestamp)
  }

  /** What processing the next queued frame does; `sent` is what it puts on the line. */
  function Worked(p: Pipe, env: Env): (r: (Pipe, seq<seq<bv8>>))
    requires Sound(p)
    ensures Sound(r.0)
  {
    if p.queue.messages == [] then (p, [])
    else
      var frame := Taken(p);
      var o := Processed(p.slave, frame, env);
      (p.(queue := Popped(p.queue), frame := frame, slave := o.slave), o.sent)
  }

  class Endpoint {
    const uart: UartReceiver.Receiver
    const queue: Queue
    const service: Service
    const rxScratch: array<bv8>
    var frameScratch: FrameItem

    ghost predicate Valid()
      reads this, uart, uart.buf, queue, queue.frames, service
    {
      && uart.Valid() && queue.Valid() && service.Valid() && frameScratch.Valid()
      && rxScratch.Length == SCRATCH && rxScratch != uart.buf
      && service.response != uart.buf && service.response != rxScratch
    }

    ghost function State(): (p: Pipe)
      requires Valid()
      ensures Sound(p)
      reads this, uart, uart.buf, queue, queue.frames, service, service.holding, service.input, service.store,
        service.errors
    {
      Pipe(uart.State(), queue.Contents(), frameScratch, service.State())
    }

    constructor (uart: UartReceiver.Receiver, queue: Queue, service: Service)
      requires uart.Valid() && queue.Valid() && service.Valid() && service.response != uart.buf
      ensures Valid() && this.uart == uart && this.queue == queue && this.service == service
    {
      this.uart, this.queue, this.service := uart, queue, service;
      rxScratch := new bv8[SCRATCH](_ => 0);
      frameScratch := FrameItem(seq(FRAME_BYTES, _ => 0), 0, 0);
    }

    /** Polls, and fetches a finished frame. */
    method FetchFinished(ms: nat) returns (len: nat)
      requires Valid() && ms < TICKS
      modifies uart, rxScratch
      ensures Valid()
      ensures
        var rx := UartReceiver.Polled(old(uart.State()), ms);
        && State() == old(State()).(rx := UartReceiver.Fetched(rx, SCRATCH))
        && len <= SCRATCH && rxScratch[..len] == UartReceiver.Taken(rx, SCRATCH)
    {
      hide UartReceiver.Polled, UartReceiver.Ring;
      uart.Poll(ms);
      len := 0;
      if uart.ready {
        len := uart.FetchFrame(rxScratch, SCRATCH);
      }
    }

    method QueueFetched(len: nat, us: nat)
      requires Valid() && len <= SCRATCH
      modifies queue, queue.frames, service.errors
      ensures Valid()
      ensures State() == Queued(old(State()), rxScratch[..len], us)
    {
      hide Enqueued;
      if len > 0 {
        var queued := queue.Enqueue(rxScratch, len, us);
        if !queued {
          service.errors.ReportUartOverflow();
          assert service.State() == Recorded(old(service.State()), ErrorManager.UartOverflow);
        }
      }
      hide ErrorManager.After;
    }

    method Receive(ms: nat, us: nat)
      requires Valid() && ms < TICKS
      modifies uart, queue, queue.frames, rxScratch, service.errors
      ensures Valid() && State() == Received(old(State()), ms, us)
    {
      hide UartReceiver.Polled, UartReceiver.Taken, UartReceiver.Fetched, Queued, UartReceiver.Ring,
        UartReceiver.DmaHead, Queue.Items, Queue.Contents, Messages;
      var len := FetchFinished(ms);
      QueueFetched(len, us);
    }

    /** Copies the oldest queued frame over the frame buffer. */
    method TakeFrame() returns (success: bool)
      requires Valid()
      modifies this`frameScratch, queue
      ensures Valid() && success == (old(State()).queue.messages != [])
      ensures !success ==> State() == old(State())
      ensures success ==> State() == old(State()).(queue := Popped(old(State()).queue), frame := Taken(old(State())))
    {
      hide Popped, Queue.Items, Messages, UartReceiver.Ring, UartReceiver.DmaHead;
      ghost var before := State();
      var received;
      success, received := queue.Dequeue(Into(frameScratch));
      if !success {
        return;
      }
      assert received.frame == Taken(before);
      frameScratch := received.frame;
    }

    /** Takes one frame from the queue and processes it. */
    method Work(env: Env)
      requires Valid()
      modifies this`frameScratch, queue, service`sent, service`address, service.holding, service.input,
        service.response, service.store, service.errors
      ensures Valid()
      ensures
        var (p, sent) := Worked(old(State()), env);
        State() == p && service.sent == old(service.sent) + sent
    {
      hide Processed, Popped, Taken, Queue.Items, Queue.Contents, Messages, UartReceiver.Ring, UartReceiver.DmaHead;
      var success := TakeFrame();
      if success {
        var _ := service.ProcessFrame(Into(frameScratch), env);
      }
    }

    method Process(ms: nat, us: nat, env: Env)
      requires Valid() && ms < TICKS
      modifies this`frameScratch, uart, queue, queue.frames, rxScratch, service`sent, service`address,
        service.holding, service.input, service.response, service.store, service.errors
      ensures Valid()
      ensures
        var (p, sent) := Worked(Received(old(State()), ms, us), env);
        State() == p && service.sent == old(service.sent) + sent
    {
      hide Worked, Received, Sound;
      Receive(ms, us);
      Work(env);
    }
  }

  /** A fetched frame waits behind at most nine others; behind ten it is lost, counted and reported. */
  lemma QueueingReports(p: Pipe, bytes: seq<bv8>, us: nat)
    requires 0 < |bytes| <= 256
    ensures Queued(p, bytes, us) ==
      if |p.queue.messages| < 10
      then p.(queue := p.queue.(messages := p.queue.messages + [Message(bytes, us)]))
      else p.(queue := p.queue.(overflows := (p.queue.overflows + 1) % 0x1_0000_0000),
              slave := p.slave.(errors := ErrorManager.After(p.slave.errors, ErrorManager.UartOverflow)))
  {
    hide ErrorManager.After;
  }

  // ----- Runs driven by `process` --------------------------------------------------------------------------

  /** What happens to the endpoint: the line's own events, further polls, and rounds of the main loop. */
  datatype Event =
    | Byte(b: bv8)
    | IdleInterrupt
    | SysTick
    | Poll(ms: nat)
    | Round(ms: nat, us: nat, env: Env)

  /** The endpoint with the receiver's history, the frames its rounds fetched, those it processed, the
      overflows it reported and what it has sent. */
  datatype Trace = Trace(
    pipe: Pipe,
    history: UartReceiver.History,
    fetched: seq<seq<bv8>>,
    processed: seq<seq<bv8>>,
    overflows: nat,
    sent: seq<seq<bv8>>)

  function OnLine(t: Trace, e: UartReceiver.Event): (u: Trace)
    requires Sound(t.pipe) && UartReceiver.InRange(t.history.rx)
    ensures Sound(u.pipe) && UartReceiver.InRange(u.history.rx)
  {
    var history := UartReceiver.After(t.history, e);
    t.(history := history, pipe := t.pipe.(rx := history.rx))
  }

  function InRound(t: Trace, ms: nat, us: nat, env: Env): (u: Trace)
    requires Sound(t.pipe) && UartReceiver.InRange(t.history.rx)
    ensures Sound(u.pipe) && UartReceiver.InRange(u.history.rx)
  {
    var bytes, received := FetchedNow(t.pipe, ms), Received(t.pipe, ms, us);
    var (pipe, sent) := Worked(received, env);
    var polled := UartReceiver.After(t.history, UartReceiver.Poll(ms));
    Trace(
      pipe,
      UartReceiver.After(polled, UartReceiver.Fetch(SCRATCH)),
      t.fetched + if bytes == [] then [] else [bytes],
      t.processed + if received.queue.messages == [] then [] else [Taken(received).Payload()],
      t.overflows + if bytes != [] && |t.pipe.queue.messages| >= SLOTS then 1 else 0,
      t.sent + sent)
  }

  function Next(t: Trace, e: Event): (u: Trace)
    requires Sound(t.pipe) && UartReceiver.InRange(t.history.rx)
    ensures Sound(u.pipe) && UartReceiver.InRange(u.history.rx)
  {
    match e
    case Byte(b) => OnLine(t, UartReceiver.Byte(b))
    case IdleInterrupt => OnLine(t, UartReceiver.IdleInterrupt)
    case SysTick => OnLine(t, UartReceiver.SysTick)
    case Poll(ms) => OnLine(t, UartReceiver.Poll(ms))
    case Round(ms, us, env) => InRound(t, ms, us, env)
  }

  function Begin(slave: Slave): (t: Trace)
    ensures Sound(t.pipe) && UartReceiver.InRange(t.history.rx)
  {
    var frame := FrameItem(seq(FRAME_BYTES, _ => 0), 0, 0);
    Trace(Pipe(UartReceiver.START, EMPTY, frame, slave), UartReceiver.BEGIN, [], [], 0, [])
  }

  ghost function Run(slave: Slave, events: seq<Event>): (t: Trace)
    ensures Sound(t.pipe) && UartReceiver.InRange(t.history.rx)
  {
    if events == [] then Begin(slave) else Next(Run(slave, events[..|events| - 1]), events[|events| - 1])
  }

  function Flat(frames: seq<seq<bv8>>): seq<bv8> {
    if frames == [] then [] else Flat(frames[..|frames| - 1]) + frames[|frames| - 1]
  }

  lemma FlatAppend(frames: seq<seq<bv8>>, frame: seq<bv8>)
    ensures Flat(frames + [frame]) == Flat(frames) + frame
  {
    assert (frames + [frame])[..|frames|] == frames;
  }

  /** Between rounds no frame waits; each fetched frame has been processed, in order; none was turned away. */
  ghost predicate Drained(t: Trace) {
    && t.pipe.queue == EMPTY
    && t.processed == t.fetched
    && t.overflows == 0
    && t.pipe.rx == t.history.rx
    && Flat(t.processed) == t.history.fetched
    && |t.sent| <= |t.processed|
  }

  /** A round on an empty queue: what it fetches it processes at once. */
  lemma RoundDrains(t: Trace, ms: nat, us: nat, env: Env)
    requires Sound(t.pipe) && UartReceiver.InRange(t.history.rx) && Drained(t)
    ensures Drained(InRound(t, ms, us, env))
  {
    hide UartReceiver.Polled, UartReceiver.Taken, UartReceiver.Ring, Processed;
    var bytes, received := FetchedNow(t.pipe, ms), Received(t.pipe, ms, us);
    FlatAppend(t.processed, bytes);
    if bytes != [] {
      assert received.queue == Fifo([Message(bytes, us)], 0);
      assert Taken(received).Payload() == bytes;
      ResponseDiscipline(received.slave, Taken(received), env);
    }
    var u := InRound(t, ms, us, env);
    assert u.processed == if bytes == [] then t.processed else t.processed + [bytes];
  }

  lemma {:induction false} RoundsDrain(slave: Slave, events: seq<Event>)
    ensures Drained(Run(slave, events))
  {
    hide InRound, UartReceiver.Polled, UartReceiver.Ring, UartReceiver.Taken;
    if events != [] {
      var n := |events| - 1;
      RoundsDrain(slave, events[..n]);
      var t := Run(slave, events[..n]);
      match events[n] {
        case Round(ms, us, env) => RoundDrains(t, ms, us, env);
        case _ =>
      }
    }
  }

  ghost predicate KeepsUp(slave: Slave, events: seq<Event>) {
    forall n :: 0 <= n <= |events| ==> UartReceiver.Unread(Run(slave, events[..n]).history) <= 256
  }

  lemma RoundConserves(t: Trace, ms: nat, us: nat, env: Env)
    requires Sound(t.pipe) && UartReceiver.InRange(t.history.rx)
    requires UartReceiver.Conserved(t.history) && UartReceiver.Unread(t.history) <= UartReceiver.SIZE
    ensures UartReceiver.Conserved(InRound(t, ms, us, env).history)
  {
    var poll := UartReceiver.Poll(ms);
    UartReceiver.StepConserves(t.history, poll);
    var polled := UartReceiver.After(t.history, poll);
    assert UartReceiver.Unread(polled) == UartReceiver.Unread(t.history);
    hide UartReceiver.After, UartReceiver.Polled, Worked, Received, UartReceiver.Taken;
    UartReceiver.StepConserves(polled, UartReceiver.Fetch(SCRATCH));
  }

  lemma BeginConserved(slave: Slave)
    ensures UartReceiver.Conserved(Begin(slave).history)
  {}

  lemma {:induction false} HistoryConserved(slave: Slave, events: seq<Event>)
    requires KeepsUp(slave, events)
    ensures UartReceiver.Conserved(Run(slave, events).history)
  {
    hide InRound, UartReceiver.After, UartReceiver.Conserved, UartReceiver.Unread;
    if events == [] {
      BeginConserved(slave);
    } else {
      var n := |events| - 1;
      assert forall k :: 0 <= k <= n ==> events[..n][..k] == events[..k];
      HistoryConserved(slave, events[..n]);
      var t := Run(slave, events[..n]);
      match events[n] {
        case Byte(b) => UartReceiver.StepConserves(t.history, UartReceiver.Byte(b));
        case IdleInterrupt => UartReceiver.StepConserves(t.history, UartReceiver.IdleInterrupt);
        case SysTick => UartReceiver.StepConserves(t.history, UartReceiver.SysTick);
        case Poll(ms) => UartReceiver.StepConserves(t.history, UartReceiver.Poll(ms));
        case Round(ms, us, env) => RoundConserves(t, ms, us, env);
      }
    }
  }

  /** End to end: over every interleaving of arriving bytes, interrupts, polls and rounds, the queue is
      empty after each round and no overflow is ever reported; and if at most 256 bytes are ever unread,
      the frames processed, laid end to end, are exactly a prefix of the bytes received: no byte of them is
      lost, doubled or out of order. At most one reply has left per frame. */
  lemma StreamIsProcessed(slave: Slave, events: seq<Event>)
    ensures
      var t := Run(slave, events);
      && t.pipe.queue == EMPTY && t.overflows == 0 && t.processed == t.fetched && |t.sent| <= |t.processed|
      && (KeepsUp(slave, events) ==>
            var done := Flat(t.processed);
            |done| <= |t.history.rx.stream| && done == t.history.rx.stream[..|done|])
  {
    hide Run, KeepsUp, Flat;
    RoundsDrain(slave, events);
    if KeepsUp(slave, events) {
      HistoryConserved(slave, events);
    }
  }
}
