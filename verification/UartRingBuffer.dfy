/** The software receive path: a byte FIFO over a circular array, and the assembler that turns the
    bytes between two end-of-frame events into one frame. */
module UartRingBuffer {

  const CAPACITY: nat := 256

  /** An index that may have run past the end of the array once. */
  function Wrap(i: nat): nat { if i < CAPACITY then i else i - CAPACITY }

  function Min(a: nat, b: nat): nat { if a < b then a else b }

  /** `count` bytes of a circular array, from `tail` on. */
  function Window(ring: seq<bv8>, tail: nat, count: nat): (s: seq<bv8>)
    requires |ring| == CAPACITY && tail < CAPACITY && count <= CAPACITY
    ensures |s| == count
  {
    if tail + count <= CAPACITY then ring[tail..tail + count] else ring[tail..] + ring[..tail + count - CAPACITY]
  }

  class RingBuffer {
    const buffer: array<bv8>
    var head: nat
    var tail: nat
    var count: nat

    ghost predicate Valid()
      reads this
    {
      && buffer.Length == CAPACITY
      && head < CAPACITY && tail < CAPACITY && count <= CAPACITY
      && head == Wrap(tail + count)
    }

    /** The queued bytes, oldest first. */
    ghost function Contents(): (s: seq<bv8>)
      requires Valid()
      reads this, buffer
      ensures |s| == count
    {
      Window(buffer[..], tail, count)
    }

    constructor ()
      ensures Valid() && Contents() == []
      ensures fresh(buffer)
    {
      buffer := new bv8[CAPACITY](_ => 0);
      head, tail, count := 0, 0, 0;
    }

    method Push(value: bv8) returns (ok: bool)
      requires Valid()
      modifies this, buffer
      ensures Valid()
      ensures ok <==> |old(Contents())| < 256
      ensures Contents() == if ok then old(Contents()) + [value] else old(Contents())
    {
      if count == CAPACITY {
        return false;
      }
      WindowAppend(buffer[..], tail, count, value);
      NextPlace(head);
      hide Window;
      buffer[head] := value;
      head := (head + 1) % CAPACITY;
      count := count + 1;
      return true;
    }

    /** `value` is a reference parameter in the firmware; it keeps `before` when nothing is popped. */
    method Pop(before: bv8) returns (ok: bool, value: bv8)
      requires Valid()
      modifies this
      ensures Valid()
      ensures ok <==> old(Contents()) != []
      ensures ok ==> value == old(Contents())[0] && Contents() == old(Contents())[1..]
      ensures !ok ==> value == before && Contents() == old(Contents())
    {
      if count == 0 {
        return false, before;
      }
      WindowTail(buffer[..], tail, count);
      NextPlace(tail);
      hide Window, Wrap;
      value := buffer[tail];
      tail := (tail + 1) % CAPACITY;
      count := count - 1;
      ok := true;
    }

    method Clear()
      requires Valid()
      modifies this
      ensures Valid() && Contents() == []
    {
      head, tail, count := 0, 0, 0;
    }
  }

  lemma WindowTail(ring: seq<bv8>, tail: nat, count: nat)
    requires |ring| == CAPACITY && tail < CAPACITY && 0 < count <= CAPACITY
    ensures Window(ring, tail, count)[0] == ring[tail]
    ensures Window(ring, tail, count)[1..] == Window(ring, Wrap(tail + 1), count - 1)
    ensures Wrap(tail + count) == Wrap(Wrap(tail + 1) + (count - 1))
  {}

  lemma WindowAppend(ring: seq<bv8>, tail: nat, count: nat, value: bv8)
    requires |ring| == CAPACITY && tail < CAPACITY && count < CAPACITY
    ensures Window(ring[Wrap(tail + count) := value], tail, count + 1) == Window(ring, tail, count) + [value]
  {}

  lemma NextPlace(i: nat)
    requires i < CAPACITY
    ensures (i + 1) % CAPACITY == Wrap(i + 1)
  {}

  // ----- Specification of the assembler -----------------------------------------------------

  /** Bytes still queued, the frame last assembled, and whether it is waiting to be fetched. */
  datatype Assembly = Assembly(pending: seq<bv8>, frame: seq<bv8>, ready: bool)

  datatype Event = Byte(value: bv8) | Complete | Fetch(maxLength: nat) | Clear

  function Received(s: Assembly, value: bv8): Assembly {
    Assembly(if |s.pending| < CAPACITY then s.pending + [value] else s.pending, s.frame, false)
  }

  function Completed(s: Assembly): Assembly {
    if s.pending == [] then s else Assembly([], s.pending, true)
  }

  predicate Fetchable(s: Assembly, maxLength: nat) {
    s.ready && maxLength != 0
  }

  function Delivered(s: Assembly, maxLength: nat): seq<bv8> {
    if Fetchable(s, maxLength) then s.frame[..Min(|s.frame|, maxLength)] else []
  }

  function Fetched(s: Assembly, maxLength: nat): Assembly {
    if Fetchable(s, maxLength) then Assembly(s.pending, [], false) else s
  }

  const EMPTY := Assembly([], [], false)

  class FrameBuffer {
    const rx: RingBuffer
    const frame: array<bv8>
    var frameLength: nat
    var frameReady: bool

    ghost predicate Valid()
      reads this, rx
    {
      && rx.Valid()
      && frame.Length == CAPACITY && frame != rx.buffer
      && frameLength <= CAPACITY
    }

    ghost function State(): Assembly
      requires Valid()
      reads this, rx, rx.buffer, frame
    {
      Assembly(rx.Contents(), frame[..frameLength], frameReady)
    }

    constructor ()
      ensures Valid() && State() == EMPTY
      ensures fresh(rx) && fresh(rx.buffer) && fresh(frame)
    {
      rx := new RingBuffer();
      frame := new bv8[CAPACITY](_ => 0);
      frameLength, frameReady := 0, false;
    }

    method ReceiveByte(value: bv8) returns (ok: bool)
      requires Valid()
      modifies this, rx, rx.buffer
      ensures Valid() && State() == Received(old(State()), value)
      ensures ok <==> |old(State()).pending| < 256
    {
      frameReady := false;
      ok := rx.Push(value);
    }

    /** Drains the queue into the frame array; the loop runs once per queued byte. */
    method CompleteFrame() returns (ok: bool)
      requires Valid()
      modifies this, rx, frame
      ensures Valid() && State() == Completed(old(State()))
      ensures ok <==> old(State()).pending != []
    {
      if rx.count == 0 {
        return false;
      }
      ghost var queued := rx.Contents();
      frameLength := 0;
      var value: bv8 := 0;
      hide RingBuffer.Contents, Window, Wrap;
      while rx.count != 0 && frameLength < frame.Length
        invariant Valid() && frameLength + rx.count == |queued|
        invariant frame[..frameLength] == queued[..frameLength]
        invariant rx.Contents() == queued[frameLength..]
        decreases rx.count
      {
        var _, v := rx.Pop(value);
        value := v;
        frame[frameLength] := value;
        frameLength := frameLength + 1;
      }
      frameReady := frameLength > 0;
      ok := frameReady;
    }

    method FetchFrame(destination: array?<bv8>, maxLength: nat) returns (length: nat)
      requires Valid()
      requires destination != null ==> maxLength <= destination.Length
      requires destination != rx.buffer && destination != frame
      modifies this, if destination != null then {destination} else {}
      ensures Valid()
      ensures destination == null ==> length == 0 && State() == old(State())
      ensures destination != null ==> State() == Fetched(old(State()), maxLength)
      ensures destination != null ==>
        && length == |Delivered(old(State()), maxLength)|
        && destination[..length] == Delivered(old(State()), maxLength)
        && destination[length..] == old(destination[..])[length..]
    {
      if !frameReady || destination == null || maxLength == 0 {
        return 0;
      }
      length := if frameLength < maxLength then frameLength else maxLength;
      for i := 0 to length
        invariant destination[..i] == frame[..i]
        invariant destination[i..] == old(destination[..])[i..]
        invariant frame[..] == old(frame[..])
        invariant rx.Contents() == old(rx.Contents())
      {
        destination[i] := frame[i];
      }
      frameReady := false;
      frameLength := 0;
    }

    method Clear()
      requires Valid()
      modifies this, rx
      ensures Valid() && State() == EMPTY
    {
      rx.Clear();
      frameLength := 0;
      frameReady := false;
    }
  }

  // ----- Runs ----------------------------------------------------------------------------------

  function After(s: Assembly, e: Event): Assembly {
    match e
    case Byte(v) => Received(s, v)
    case Complete => Completed(s)
    case Fetch(n) => Fetched(s, n)
    case Clear => EMPTY
  }

  function Run(s: Assembly, events: seq<Event>): Assembly
    decreases events
  {
    if events == [] then s else After(Run(s, events[..|events| - 1]), events[|events| - 1])
  }

  /** The bytes that arrived during some events, in order. */
  function BytesIn(events: seq<Event>): seq<bv8> {
    if events == [] then []
    else
      var last := events[|events| - 1];
      BytesIn(events[..|events| - 1]) + if last.Byte? then [last.value] else []
  }

  /** Between two successful completions there is no `Clear`, and `Complete` occurs only while no byte
      has arrived yet (where it fails). */
  predicate OneFrame(events: seq<Event>) {
    && (forall i :: 0 <= i < |events| ==> events[i] != Clear)
    && (forall i :: 0 <= i < |events| && events[i] == Complete ==> BytesIn(events[..i]) == [])
  }

  /** Events that neither bring a byte, nor clear, nor take the frame. */
  predicate Quiet(events: seq<Event>) {
    forall i :: 0 <= i < |events| ==> events[i] == Complete || events[i] == Fetch(0)
  }

  lemma {:induction false} PendingIsBytesIn(s: Assembly, events: seq<Event>)
    requires s.pending == [] && OneFrame(events)
    ensures Run(s, events).pending == BytesIn(events)[..Min(|BytesIn(events)|, 256)]
    decreases events
  {
    if events != [] {
      var before, last := events[..|events| - 1], events[|events| - 1];
      assert forall i :: 0 <= i < |before| ==> before[i] == events[i] && before[..i] == events[..i];
      PendingIsBytesIn(s, before);
      assert last == Complete ==> BytesIn(before) == [];
    }
  }

  lemma {:induction false} QuietKeeps(s: Assembly, events: seq<Event>)
    requires s.pending == [] && Quiet(events)
    ensures Run(s, events) == s
    decreases events
  {
    if events != [] {
      QuietKeeps(s, events[..|events| - 1]);
    }
  }

  /** A fetch delivers exactly the bytes that arrived between the last two completions, cut first to
      the capacity of the queue and then to what the caller asked for; a second fetch gets nothing. */
  lemma FetchDeliversFrame(s: Assembly, arriving: seq<Event>, quiet: seq<Event>, maxLength: nat)
    requires s.pending == [] && OneFrame(arriving) && BytesIn(arriving) != [] && Quiet(quiet)
    ensures
      var bytes := BytesIn(arriving);
      var waiting := Run(Completed(Run(s, arriving)), quiet);
      && Delivered(waiting, maxLength) == bytes[..Min(Min(|bytes|, 256), maxLength)]
      && (maxLength != 0 ==> Fetched(waiting, maxLength) == EMPTY)
      && (maxLength != 0 ==> Delivered(Fetched(waiting, maxLength), maxLength) == [])
  {
    PendingIsBytesIn(s, arriving);
    QuietKeeps(Completed(Run(s, arriving)), quiet);
  }

  /** A frame waits only while nothing is queued behind it. */
  lemma {:induction false} ReadyMeansDrained(events: seq<Event>)
    ensures Run(EMPTY, events).ready ==> Run(EMPTY, events).pending == []
  {
    if events != [] {
      ReadyMeansDrained(events[..|events| - 1]);
    }
  }

  /** Completions come only while no byte has arrived. */
  predicate NoNewFrame(events: seq<Event>) {
    forall i :: 0 <= i < |events| && events[i] == Complete ==> BytesIn(events[..i]) == []
  }

  /** Until the next frame is completed, the waiting frame goes on waiting exactly as long as no byte
      arrives, nothing is cleared, and nothing is fetched: a single late byte withdraws it for good. */
  lemma {:induction false} LateByteWithdrawsFrame(w: Assembly, rest: seq<Event>)
    requires w.ready && w.pending == [] && NoNewFrame(rest)
    ensures Run(w, rest).ready <==> Quiet(rest)
    ensures BytesIn(rest) == [] ==> Run(w, rest).pending == []
    decreases rest
  {
    if rest != [] {
      var before, last := rest[..|rest| - 1], rest[|rest| - 1];
      assert forall i :: 0 <= i < |before| ==> before[i] == rest[i] && before[..i] == rest[..i];
      LateByteWithdrawsFrame(w, before);
      assert Quiet(rest) <==> Quiet(before) && (last == Complete || last == Fetch(0));
    }
  }
}
