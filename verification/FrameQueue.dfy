/** The ten-slot ring in which received frames wait to be processed. */
module FrameQueue {

  const SLOTS: nat := 10
  const FRAME_BYTES: nat := 256
  const UINT32: nat := 0x1_0000_0000

  /** A frame slot: a fixed buffer of which the first `len` bytes are the frame. What lies behind them
      is left over from earlier frames. */
  datatype FrameItem = FrameItem(data: seq<bv8>, len: nat, timestamp: nat) {
    ghost predicate Valid() {
      |data| == FRAME_BYTES && len <= FRAME_BYTES
    }

    /** The frame proper. */
    function Payload(): seq<bv8>
      requires Valid()
    {
      data[..len]
    }

    /** The slot after `payload` has been copied over its beginning. */
    function Filled(payload: seq<bv8>, time: nat): (item: FrameItem)
      requires Valid() && |payload| <= FRAME_BYTES
      ensures item.Valid() && item.Payload() == payload
    {
      var item := FrameItem(payload + data[|payload|..], |payload|, time);
      assert item.data[..|payload|] == payload;
      item
    }
  }

  /** Where a caller wants a frame: nowhere, or over a slot of its own. */
  datatype Target = Null | Into(frame: FrameItem)

  /** A queued frame as its consumer sees it. */
  datatype Message = Message(bytes: seq<bv8>, timestamp: nat)

  function AsMessage(item: FrameItem): Message
    requires item.Valid()
  {
    Message(item.Payload(), item.timestamp)
  }

  ghost predicate AllValid(items: seq<FrameItem>) {
    forall i :: 0 <= i < |items| ==> items[i].Valid()
  }

  function Messages(items: seq<FrameItem>): (messages: seq<Message>)
    requires AllValid(items)
    ensures |messages| == |items|
  {
    seq(|items|, i requires 0 <= i < |items| => AsMessage(items[i]))
  }

  function Wrap(i: nat): nat { if i < SLOTS then i else i - SLOTS }

  /** The bounded FIFO the ring stands for. */
  datatype Fifo = Fifo(messages: seq<Message>, overflows: nat)

  const EMPTY := Fifo([], 0)

  function Truncated(bytes: seq<bv8>): seq<bv8> {
    if |bytes| > FRAME_BYTES then bytes[..FRAME_BYTES] else bytes
  }

  function Enqueued(q: Fifo, bytes: seq<bv8>, time: nat): Fifo {
    if |q.messages| < SLOTS then q.(messages := q.messages + [Message(Truncated(bytes), time)])
    else q.(overflows := (q.overflows + 1) % UINT32)
  }

  function Popped(q: Fifo): Fifo {
    if q.messages == [] then q else q.(messages := q.messages[1..])
  }

  class Queue {
    const frames: array<FrameItem>
    var head: nat
    var tail: nat
    var count: nat
    var overflowCount: nat

    ghost predicate Valid()
      reads this, frames
    {
      && frames.Length == SLOTS
      && head < SLOTS && tail < SLOTS && count <= SLOTS && head == Wrap(tail + count)
      && AllValid(frames[..])
    }

    /** The occupied slots, oldest first. */
    ghost function Items(): (items: seq<FrameItem>)
      requires Valid()
      reads this, frames
      ensures |items| == count && AllValid(items)
    {
      if tail + count <= SLOTS then frames[tail..tail + count]
      else frames[tail..] + frames[..tail + count - SLOTS]
    }

    ghost function Contents(): (q: Fifo)
      requires Valid()
      reads this, frames
      ensures |q.messages| == count
    {
      Fifo(Messages(Items()), overflowCount)
    }

    constructor ()
      ensures Valid() && Contents() == EMPTY
      ensures fresh(frames)
    {
      var blank := FrameItem(seq(FRAME_BYTES, _ => 0), 0, 0);
      frames := new FrameItem[SLOTS](_ => blank);
      head, tail, count, overflowCount := 0, 0, 0, 0;
    }

    /** `data` may be null; a longer frame is cut to the slot size. */
    method Enqueue(data: array?<bv8>, len: nat, now: nat) returns (success: bool)
      requires Valid() && (data != null ==> len <= data.Length)
      modifies this, frames
      ensures Valid()
      ensures data == null ==> !success && Contents() == old(Contents())
      ensures data != null ==> Contents() == Enqueued(old(Contents()), old(data[..len]), now)
      ensures data != null ==> (success <==> |old(Contents()).messages| < 10)
    {
      if data == null {
        return false;
      }
      var n := if len > FRAME_BYTES then FRAME_BYTES else len;
      if count < SLOTS {
        hide Items, Messages;
        assert data[..n] == Truncated(data[..len]);
        Store(data[..n], now);
        success := true;
      } else {
        overflowCount := (overflowCount + 1) % UINT32;
        success := false;
      }
    }

    /** Fills the head slot and moves on. */
    method Store(payload: seq<bv8>, now: nat)
      requires Valid() && count < SLOTS && |payload| <= FRAME_BYTES
      modifies this`head, this`count, frames
      ensures Valid()
      ensures Contents() == old(Contents()).(messages := old(Contents()).messages + [Message(payload, now)])
    {
      ghost var before := Items();
      frames[head] := frames[head].Filled(payload, now);
      ghost var item := frames[head];
      head := head + 1;
      if head >= SLOTS {
        head := 0;
      }
      count := count + 1;
      assert Items() == before + [item];
    }

    /** Copies the oldest frame over the caller's frame, which keeps its old bytes beyond the copy. Without
        a frame to copy to, nothing is taken. */
    method Dequeue(target: Target) returns (success: bool, received: Target)
      requires Valid() && (target.Into? ==> target.frame.Valid())
      modifies this
      ensures Valid()
      ensures success <==> target.Into? && old(Contents()).messages != []
      ensures if success then Contents() == Popped(old(Contents())) else Contents() == old(Contents())
      ensures success ==> received.Into? && received.frame.Valid()
      ensures success ==> AsMessage(received.frame) == old(Contents()).messages[0]
      ensures success ==>
        received.frame == target.frame.Filled(received.frame.Payload(), received.frame.timestamp)
      ensures !success ==> received == target
    {
      if target.Null? || count == 0 {
        return false, target;
      }
      assert Items()[0] == frames[tail];
      received := Into(target.frame.Filled(frames[tail].data[..frames[tail].len], frames[tail].timestamp));
      Advance();
      success := true;
    }

    method Peek() returns (present: bool, frame: FrameItem)
      requires Valid()
      ensures present <==> Contents().messages != []
      ensures present ==> frame.Valid() && AsMessage(frame) == Contents().messages[0]
    {
      present, frame := count > 0, frames[tail];
      assert present ==> Items()[0] == frame;
    }

    method Pop()
      requires Valid()
      modifies this
      ensures Valid() && Contents() == Popped(old(Contents()))
    {
      if count > 0 {
        Advance();
      }
    }

    method Advance()
      requires Valid() && count > 0
      modifies this`tail, this`count
      ensures Valid() && Contents() == Popped(old(Contents()))
    {
      ghost var before := Items();
      tail := tail + 1;
      if tail >= SLOTS {
        tail := 0;
      }
      count := count - 1;
      assert Items() == before[1..];
    }

    method Clear()
      requires Valid()
      modifies this
      ensures Valid() && Contents() == EMPTY
    {
      head, tail, count, overflowCount := 0, 0, 0, 0;
    }
  }

  // ----- Every sequence of operations ------------------------------------------------------------

  datatype Operation = Enqueue(bytes: seq<bv8>, now: nat) | Dequeue | Clear

  /** A queue with the log of what it accepted and what it gave out since it was last cleared, and the
      number of frames it turned away. */
  datatype Log = Log(queue: Fifo, accepted: seq<Message>, taken: seq<Message>, refused: nat)

  /** A frame as it is kept: its first 256 bytes. */
  function First256(bytes: seq<bv8>): seq<bv8> {
    bytes[..if |bytes| < 256 then |bytes| else 256]
  }

  function After(log: Log, op: Operation): Log {
    match op
    case Enqueue(bytes, now) =>
      var queue := Enqueued(log.queue, bytes, now);
      if |log.queue.messages| < 10
      then log.(queue := queue, accepted := log.accepted + [Message(First256(bytes), now)])
      else log.(queue := queue, refused := log.refused + 1)
    case Dequeue =>
      log.(queue := Popped(log.queue),
           taken := log.taken + if log.queue.messages == [] then [] else [log.queue.messages[0]])
    case Clear => Log(EMPTY, [], [], 0)
  }

  function Run(ops: seq<Operation>): Log {
    if ops == [] then Log(EMPTY, [], [], 0) else After(Run(ops[..|ops| - 1]), ops[|ops| - 1])
  }

  /** Frames leave in the order they were accepted, none lost, none twice; never more than ten wait; a
      frame is turned away only when ten wait, and the counter counts those modulo 2^32. */
  lemma {:induction false} FirstInFirstOut(ops: seq<Operation>)
    ensures
      var log := Run(ops);
      && log.accepted == log.taken + log.queue.messages
      && |log.queue.messages| <= 10
      && log.queue.overflows == log.refused % 0x1_0000_0000
  {
    if ops != [] {
      var before, op := Run(ops[..|ops| - 1]), ops[|ops| - 1];
      FirstInFirstOut(ops[..|ops| - 1]);
      OneOperation(before, op);
    }
  }

  lemma OneOperation(log: Log, op: Operation)
    requires log.accepted == log.taken + log.queue.messages && |log.queue.messages| <= 10
    requires log.queue.overflows == log.refused % 0x1_0000_0000
    ensures
      var next := After(log, op);
      && next.accepted == next.taken + next.queue.messages
      && |next.queue.messages| <= 10
      && next.queue.overflows == next.refused % 0x1_0000_0000
  {
    if op.Enqueue? {
      assert Truncated(op.bytes) == First256(op.bytes);
    }
    hide Truncated, First256;
    var waiting := log.queue.messages;
    if op.Dequeue? && waiting != [] {
      assert waiting == [waiting[0]] + waiting[1..];
    }
  }
}
