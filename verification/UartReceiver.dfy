/** The hardware receive path: DMA writes a circular buffer, the IDLE interrupt and a polled timeout
    fix the end of a frame, and the fetch consumes the frame with wrap-around. */
module UartReceiver {
  import opened Ticks

  const SIZE: nat := 256
  const QUIET_MS: nat := 3

  datatype Line = Idle | Receiving

  /** `stream` is everything the DMA has ever written; the rest are the driver's own variables. */
  datatype Rx = Rx(
    stream: seq<bv8>,
    tail: nat,
    line: Line,
    lastHead: nat,
    frameHead: nat,
    deadline: nat,
    ready: bool)

  const START := Rx([], 0, Idle, 0, 0, 0, false)

  ghost predicate InRange(s: Rx) {
    s.tail < SIZE && s.lastHead < SIZE && s.frameHead < SIZE && s.deadline < TICKS
  }

  function DmaHead(s: Rx): nat {
    |s.stream| % SIZE
  }

  /** What the circular buffer holds once `stream` has been written into it. */
  function Ring(stream: seq<bv8>): (ring: seq<bv8>)
    ensures |ring| == SIZE
  {
    if stream == [] then seq(SIZE, _ => 0)
    else
      var n := |stream| - 1;
      Ring(stream[..n])[n % SIZE := stream[n]]
  }

  function Wrap(i: nat): nat { if i < SIZE then i else i - SIZE }

  // ----- Steps --------------------------------------------------------------------------------

  function Arrived(s: Rx, b: bv8): Rx {
    s.(stream := s.stream + [b])
  }

  function IdleSeen(s: Rx): Rx {
    s.(frameHead := DmaHead(s))
  }

  function TimerExpired(s: Rx): Rx {
    s.(ready := true)
  }

  function Polled(s: Rx, now: nat): (r: Rx)
    ensures InRange(s) ==> InRange(r)
  {
    var head := DmaHead(s);
    match s.line
    case Idle =>
      if s.ready || head == s.tail then s
      else s.(line := Receiving, lastHead := head, deadline := (now + QUIET_MS) % TICKS)
    case Receiving =>
      if head != s.lastHead then s.(lastHead := head, deadline := (now + QUIET_MS) % TICKS)
      else if Reached(now, s.deadline) then s.(frameHead := head, ready := true, line := Idle)
      else s
  }

  /** How many bytes lie between the read position and the end of the frame, as the code sees it. */
  function FrameLength(s: Rx): nat
    requires InRange(s)
  {
    if s.frameHead >= s.tail then s.frameHead - s.tail else SIZE - s.tail + s.frameHead
  }

  function Min(a: nat, b: nat): nat { if a < b then a else b }

  /** The first bytes of the marked frame, as they lie in the buffer. */
  function InFrame(s: Rx, maxLength: nat): seq<bv8>
    requires InRange(s)
  {
    seq(Min(FrameLength(s), Min(maxLength, SIZE)), i requires 0 <= i < SIZE =>
      Ring(s.stream)[Wrap(s.tail + i)])
  }

  /** The bytes a fetch of at most `maxLength` bytes returns. */
  function Taken(s: Rx, maxLength: nat): seq<bv8>
    requires InRange(s)
  {
    if s.ready then InFrame(s, maxLength) else []
  }

  function Fetched(s: Rx, maxLength: nat): (r: Rx)
    requires InRange(s)
    ensures InRange(r)
  {
    if maxLength == 0 || !s.ready then s
    else s.(tail := Wrap(s.tail + |Taken(s, maxLength)|), ready := false)
  }

  // ----- The driver -----------------------------------------------------------------------------

  class Receiver {
    const buf: array<bv8>
    /** The DMA stream's down-counter; the write position is `SIZE - ndtr`. */
    var ndtr: nat
    var tail: nat
    var line: Line
    var lastHead: nat
    var frameHead: nat
    var deadline: nat
    var ready: bool
    ghost var stream: seq<bv8>

    ghost predicate Valid()
      reads this, buf
    {
      && buf.Length == SIZE
      && buf[..] == Ring(stream)
      && ndtr == SIZE - |stream| % SIZE
      && InRange(State())
    }

    ghost function State(): Rx
      reads this
    {
      Rx(stream, tail, line, lastHead, frameHead, deadline, ready)
    }

    constructor ()
      ensures Valid() && State() == START
      ensures fresh(buf)
    {
      buf := new bv8[SIZE](_ => 0);
      ndtr, tail, line, lastHead, frameHead := SIZE, 0, Idle, 0, 0;
      deadline, ready, stream := 0, false, [];
      new;
      assert buf[..] == Ring([]);
    }

    method DmaReceive(b: bv8)
      requires Valid()
      modifies this`ndtr, this`stream, buf
      ensures Valid() && State() == Arrived(old(State()), b)
    {
      buf[SIZE - ndtr] := b;
      ndtr := if ndtr == 1 then SIZE else ndtr - 1;
      stream := stream + [b];
      assert stream[..|stream| - 1] == old(stream);
    }

    method IdleInterrupt()
      requires Valid()
      modifies this`frameHead
      ensures Valid() && State() == IdleSeen(old(State()))
    {
      frameHead := SIZE - ndtr;
    }

    method SysTickExpired()
      requires Valid()
      modifies this`ready
      ensures Valid() && State() == TimerExpired(old(State()))
    {
      ready := true;
    }

    method Poll(now: nat)
      requires Valid() && now < TICKS
      modifies this`line, this`lastHead, this`deadline, this`frameHead, this`ready
      ensures Valid() && State() == Polled(old(State()), now)
    {
      var head := SIZE - ndtr;
      match line {
        case Idle =>
          if !ready {
            if head != tail {
              line := Receiving;
              lastHead := head;
              deadline := (now + QUIET_MS) % TICKS;
            }
          }
        case Receiving =>
          if head != lastHead {
            lastHead := head;
            deadline := (now + QUIET_MS) % TICKS;
          } else {
            var elapsed := (now as int - deadline as int) % TICKS;
            if elapsed < HALF_TICKS {
              frameHead := head;
              ready := true;
              line := Idle;
            }
          }
      }
    }

    /** Copies the frame out of the circular buffer, moving the read position along. */
    method GetFrame(dst: array?<bv8>, maxLength: nat) returns (len: nat)
      requires Valid() && dst != buf
      requires dst != null ==> Min(maxLength, SIZE) <= dst.Length
      modifies this`tail, if dst != null then {dst} else {}
      ensures Valid()
      ensures dst == null ==> len == 0 && State() == old(State())
      ensures dst != null ==>
        && len == |InFrame(old(State()), maxLength)| && dst[..len] == InFrame(old(State()), maxLength)
        && dst[len..] == old(dst[..])[len..]
        && State() == old(State()).(tail := Wrap(old(tail) + len))
    {
      hide Ring;
      if dst == null {
        return 0;
      }
      var head := frameHead;
      if head >= tail {
        len := head - tail;
      } else {
        len := SIZE - tail + head;
      }
      if len == 0 {
        return;
      }
      if len > maxLength {
        len := maxLength;
      }
      CopyOut(dst, len);
    }

    /** The copying loop of `GetFrame`. */
    method CopyOut(dst: array<bv8>, len: nat)
      requires Valid() && dst != buf && len <= dst.Length && len <= SIZE
      modifies this`tail, dst
      ensures Valid() && tail == Wrap(old(tail) + len)
      ensures forall k :: 0 <= k < len ==> dst[k] == buf[Wrap(old(tail) + k)]
      ensures forall k :: len <= k < dst.Length ==> dst[k] == old(dst[k])
    {
      for i := 0 to len
        invariant tail == Wrap(old(tail) + i) && tail < SIZE
        invariant forall k :: 0 <= k < i ==> dst[k] == buf[Wrap(old(tail) + k)]
        invariant forall k :: i <= k < dst.Length ==> dst[k] == old(dst[k])
      {
        dst[i] := buf[tail];
        tail := tail + 1;
        if tail >= SIZE {
          tail := 0;
        }
      }
    }

    method FetchFrame(dst: array?<bv8>, maxLength: nat) returns (len: nat)
      requires Valid() && dst != buf
      requires dst != null ==> Min(maxLength, SIZE) <= dst.Length
      modifies this`tail, this`ready, if dst != null then {dst} else {}
      ensures Valid()
      ensures dst == null ==> len == 0 && State() == old(State())
      ensures dst != null ==>
        && State() == Fetched(old(State()), maxLength)
        && len == |Taken(old(State()), maxLength)| && dst[..len] == Taken(old(State()), maxLength)
        && dst[len..] == old(dst[..])[len..]
    {
      if dst == null || maxLength == 0 {
        return 0;
      }
      if !ready {
        return 0;
      }
      len := GetFrame(dst, if maxLength > SIZE then SIZE else maxLength);
      ready := false;
    }
  }

  // ----- Runs -------------------------------------------------------------------------------------

  /** Real time in milliseconds; the firmware sees it modulo 2^32. */
  datatype Event = Byte(b: bv8) | IdleInterrupt | SysTick | Poll(ms: nat) | Fetch(maxLength: nat)

  /** A run keeps, beside the driver's state, what has been fetched so far, how much of the stream the
      last end-of-frame mark covers, and which head every poll saw. */
  datatype History = History(rx: Rx, fetched: seq<bv8>, frozen: nat, polls: seq<(nat, nat)>)

  const BEGIN := History(START, [], 0, [])

  function After(h: History, e: Event): (g: History)
    requires InRange(h.rx)
    ensures InRange(g.rx)
  {
    match e
    case Byte(b) => h.(rx := Arrived(h.rx, b))
    case IdleInterrupt => h.(rx := IdleSeen(h.rx), frozen := |h.rx.stream|)
    case SysTick => h.(rx := TimerExpired(h.rx))
    case Poll(ms) =>
      h.(rx := Polled(h.rx, ms % TICKS),
         frozen := if Marks(h.rx, ms % TICKS) then |h.rx.stream| else h.frozen,
         polls := h.polls + [(ms, DmaHead(h.rx))])
    case Fetch(n) => h.(rx := Fetched(h.rx, n), fetched := h.fetched + Taken(h.rx, n))
  }

  /** Whether a poll ends a frame. */
  predicate Marks(s: Rx, now: nat) {
    s.line == Receiving && DmaHead(s) == s.lastHead && Reached(now, s.deadline)
  }

  ghost function Run(events: seq<Event>): (h: History)
    ensures InRange(h.rx)
  {
    if events == [] then BEGIN
    else After(Run(events[..|events| - 1]), events[|events| - 1])
  }

  // ----- The stream is conserved --------------------------------------------------------------------

  function Unread(h: History): int {
    |h.rx.stream| - |h.fetched|
  }

  /** The reader keeps up: at most 256 bytes, a whole buffer, are ever unread. */
  ghost predicate KeepsUp(events: seq<Event>) {
    forall n :: 0 <= n <= |events| ==> Unread(Run(events[..n])) <= 256
  }

  ghost predicate Conserved(h: History) {
    && |h.fetched| <= h.frozen <= |h.rx.stream|
    && h.fetched == h.rx.stream[..|h.fetched|]
    && h.rx.tail == |h.fetched| % SIZE
    && h.rx.frameHead == h.frozen % SIZE
  }

  /** The buffer still holds each of the last 256 bytes, at its position modulo 256. */
  lemma {:induction false} RingHolds(stream: seq<bv8>, i: nat)
    requires i < |stream| <= i + 256
    ensures Ring(stream)[i % 256] == stream[i]
  {
    var n := |stream| - 1;
    if i < n {
      RingHolds(stream[..n], i);
      OtherPlace(i, n);
    }
  }

  lemma OtherPlace(i: nat, n: nat)
    requires i < n < i + SIZE
    ensures i % SIZE != n % SIZE
  {}

  lemma FrameLengthIsDistance(s: Rx, from: nat, to: nat)
    requires InRange(s) && s.tail == from % SIZE && s.frameHead == to % SIZE && from <= to
    ensures FrameLength(s) == (to - from) % SIZE
  {}

  /** A fetch with fewer than 256 frozen bytes takes them from the stream, in order. */
  lemma TakenIsStream(h: History, maxLength: nat)
    requires InRange(h.rx) && Conserved(h) && Unread(h) <= SIZE && h.frozen - |h.fetched| < SIZE && h.rx.ready
    ensures
      var n := Min(h.frozen - |h.fetched|, Min(maxLength, SIZE));
      Taken(h.rx, maxLength) == h.rx.stream[|h.fetched|..|h.fetched| + n]
  {
    InFrameLength(h, maxLength);
    hide Ring, Wrap, InFrame;
    var from := |h.fetched|;
    var taken := Taken(h.rx, maxLength);
    forall i | 0 <= i < |taken| ensures taken[i] == h.rx.stream[from + i] {
      InFrameAt(h.rx, maxLength, i);
      WrapIsModulo(from, i);
      RingHolds(h.rx.stream, from + i);
    }
  }

  lemma InFrameAt(s: Rx, maxLength: nat, i: nat)
    requires InRange(s) && i < |InFrame(s, maxLength)|
    ensures InFrame(s, maxLength)[i] == Ring(s.stream)[Wrap(s.tail + i)]
  {}

  lemma InFrameLength(h: History, maxLength: nat)
    requires InRange(h.rx) && Conserved(h) && h.frozen - |h.fetched| < SIZE
    ensures |InFrame(h.rx, maxLength)| == Min(h.frozen - |h.fetched|, Min(maxLength, SIZE))
  {
    FrameLengthIsDistance(h.rx, |h.fetched|, h.frozen);
  }

  lemma WrapIsModulo(from: nat, i: nat)
    requires i <= SIZE
    ensures Wrap(from % SIZE + i) == (from + i) % SIZE
  {}

  /** A buffer filled to the last byte looks empty: nothing is taken, and nothing lost. */
  lemma FullLooksEmpty(h: History, maxLength: nat)
    requires InRange(h.rx) && Conserved(h) && h.frozen - |h.fetched| == SIZE
    ensures Taken(h.rx, maxLength) == []
  {
    FrameLengthIsDistance(h.rx, |h.fetched|, h.frozen);
  }

  lemma FetchConserves(h: History, maxLength: nat)
    requires InRange(h.rx) && Conserved(h) && Unread(h) <= SIZE && h.rx.ready
    ensures Conserved(After(h, Fetch(maxLength)))
  {
    hide Ring, Taken, Wrap;
    var from, n := |h.fetched|, |Taken(h.rx, maxLength)|;
    if h.frozen - from == SIZE {
      FullLooksEmpty(h, maxLength);
    } else {
      TakenIsStream(h, maxLength);
    }
    WrapIsModulo(from, n);
    assert h.rx.stream[..from] + h.rx.stream[from..from + n] == h.rx.stream[..from + n];
  }

  lemma StepConserves(h: History, e: Event)
    requires InRange(h.rx) && Conserved(h) && Unread(h) <= SIZE
    ensures Conserved(After(h, e))
  {
    hide Ring;
    match e
    case Byte(b) =>
    case IdleInterrupt =>
    case SysTick =>
    case Poll(ms) =>
    case Fetch(n) =>
      if h.rx.ready {
        FetchConserves(h, n);
      }
  }

  /** Over every interleaving in which the reader keeps up, what has been fetched is exactly a prefix of
      what has arrived, however often the buffer has wrapped. */
  lemma {:induction false} StreamConserved(events: seq<Event>)
    requires KeepsUp(events)
    ensures Conserved(Run(events))
  {
    if events != [] {
      var before := events[..|events| - 1];
      assert forall n :: 0 <= n <= |before| ==> before[..n] == events[..n];
      assert events[..|before|] == before;
      StreamConserved(before);
      StepConserves(Run(before), events[|before|]);
    }
  }

  /** A full fetch takes exactly the marked bytes, whatever bytes have arrived. */
  ghost predicate TakesMarked(h: History)
    requires InRange(h.rx) && Conserved(h)
  {
    forall stream: seq<bv8> :: |stream| == |h.rx.stream| ==> TakesFrom(h, stream)
  }

  ghost predicate TakesFrom(h: History, stream: seq<bv8>)
    requires InRange(h.rx) && Conserved(h) && |stream| == |h.rx.stream|
  {
    Taken(h.rx.(stream := stream), 256) == stream[|h.fetched|..h.frozen]
  }

  /** It does so exactly when nothing is marked, or less than a buffer is marked and no more than a buffer is
      unread. With a buffer or more marked it takes too few; with more unread the DMA has overwritten the
      oldest, and their places hold later bytes. */
  lemma FetchTakesAllIff(h: History)
    requires InRange(h.rx) && Conserved(h) && h.rx.ready
    ensures |Taken(h.rx, 256)| == h.frozen - |h.fetched| <==> h.frozen - |h.fetched| < 256
    ensures TakesMarked(h) <==>
      h.frozen == |h.fetched| || (h.frozen - |h.fetched| < 256 && Unread(h) <= 256)
  {
    FrameLengthIsDistance(h.rx, |h.fetched|, h.frozen);
    hide Ring, InFrame;
    var n := h.frozen - |h.fetched|;
    if n >= SIZE {
      assert !TakesFrom(h, h.rx.stream);
    } else if n > 0 && Unread(h) > SIZE {
      OverwrittenShows(h);
    } else {
      forall stream: seq<bv8> | |stream| == |h.rx.stream| ensures TakesFrom(h, stream) {
        var g := h.(rx := h.rx.(stream := stream), fetched := stream[..|h.fetched|]);
        if n > 0 {
          TakenIsStream(g, SIZE);
        }
      }
    }
  }

  /** With more than a buffer unread, a stream whose oldest unread byte differs from all others gives it away:
      the fetch finds a later byte in its place. */
  lemma OverwrittenShows(h: History)
    requires InRange(h.rx) && Conserved(h) && h.rx.ready
    requires 0 < h.frozen - |h.fetched| < SIZE < Unread(h)
    ensures !TakesMarked(h)
  {
    hide Ring, InFrame;
    var from, total := |h.fetched|, |h.rx.stream|;
    var stream := seq(total, i => if i == from then 1 else 0);
    var last := LastAt(total, from % SIZE);
    InFrameLength(h, SIZE);
    SameShape(h.rx, stream);
    InFrameAt(h.rx.(stream := stream), SIZE, 0);
    RingHolds(stream, last);
    assert !TakesFrom(h, stream);
  }

  lemma SameShape(s: Rx, stream: seq<bv8>)
    requires InRange(s)
    ensures |InFrame(s.(stream := stream), SIZE)| == |InFrame(s, SIZE)|
  {}

  /** The last index below `total` that falls on place `p` of the buffer. */
  function LastAt(total: nat, p: nat): (i: nat)
    requires p < SIZE < total
    ensures total - SIZE <= i < total && i % SIZE == p
  {
    var n := total - 1;
    n - (n - p) % SIZE
  }

  function Arrivals(stream: seq<bv8>): seq<Event> {
    seq(|stream|, i requires 0 <= i < |stream| => Byte(stream[i]))
  }

  lemma {:induction false} RunArrivals(h: History, before: seq<Event>, stream: seq<bv8>)
    requires h == Run(before)
    ensures Run(before + Arrivals(stream)) == h.(rx := h.rx.(stream := h.rx.stream + stream))
  {
    hide After;
    if stream == [] {
      assert before + Arrivals(stream) == before;
    } else {
      var n := |stream| - 1;
      RunArrivals(h, before, stream[..n]);
      assert before + Arrivals(stream) == (before + Arrivals(stream[..n])) + [Byte(stream[n])];
      RunAppend(before + Arrivals(stream[..n]), Byte(stream[n]));
      ArrivalAppends(Run(before + Arrivals(stream[..n])), stream[n]);
      assert stream[..n] + [stream[n]] == stream;
      assert h.rx.stream + stream == (h.rx.stream + stream[..n]) + [stream[n]];
    }
  }

  lemma ArrivalAppends(h: History, b: bv8)
    requires InRange(h.rx)
    ensures After(h, Byte(b)) == h.(rx := h.rx.(stream := h.rx.stream + [b]))
  {}

  /** Some bytes, the IDLE interrupt, more bytes, and only then the timer and a fetch. */
  function LateFetch(marked: seq<bv8>, later: seq<bv8>): seq<Event> {
    Arrivals(marked) + [IdleInterrupt] + Arrivals(later) + [SysTick] + [Fetch(256)]
  }

  function Late(marked: seq<bv8>, later: seq<bv8>): Rx {
    START.(stream := marked + later, frameHead := |marked| % SIZE, ready := true)
  }

  lemma LateReceived(marked: seq<bv8>, later: seq<bv8>)
    ensures Run(Arrivals(marked) + [IdleInterrupt] + Arrivals(later))
         == History(Late(marked, later).(ready := false), [], |marked|, [])
  {
    hide Ring, InFrame, Run, Arrivals;
    var m := Arrivals(marked) + [IdleInterrupt];
    assert Run([]) == BEGIN by { RunNothing(); }
    RunArrivals(BEGIN, [], marked);
    assert [] + Arrivals(marked) == Arrivals(marked) && [] + marked == marked;
    RunAppend(Arrivals(marked), IdleInterrupt);
    RunArrivals(Run(m), m, later);
  }

  lemma RunNothing()
    ensures Run([]) == BEGIN
  {}

  lemma TimerThenFetch(h: History)
    requires InRange(h.rx)
    ensures After(After(h, SysTick), Fetch(SIZE)).fetched == h.fetched + Taken(h.rx.(ready := true), SIZE)
  {
    hide Ring, InFrame;
  }

  lemma LateFetchTakes(marked: seq<bv8>, later: seq<bv8>)
    ensures Run(LateFetch(marked, later)).fetched == Taken(Late(marked, later), SIZE)
  {
    hide Ring, InFrame, Run, Arrivals, After, Taken;
    var all := Arrivals(marked) + [IdleInterrupt] + Arrivals(later);
    LateReceived(marked, later);
    RunAppend(all, SysTick);
    RunAppend(all + [SysTick], Fetch(SIZE));
    TimerThenFetch(Run(all));
  }

  /** When the reader does not keep up bytes are lost: of 257 marked bytes a fetch returns the last alone. */
  lemma OverrunLosesBytes(stream: seq<bv8>)
    requires |stream| == 257
    ensures Run(LateFetch(stream, [])).fetched == [stream[256]]
  {
    LateFetchTakes(stream, []);
    hide Run, Ring, LateFetch;
    assert stream + [] == stream;
    InFrameAt(Late(stream, []), SIZE, 0);
    RingHolds(stream, SIZE);
  }

  /** Nor need the number of bytes betray it: of 100 marked bytes 200 later ones have overwritten the first
      44, and the fetch returns 44 later bytes before the remaining 56. */
  lemma OverrunMixesBytes(marked: seq<bv8>, later: seq<bv8>)
    requires |marked| == 100 && |later| == 200
    ensures Run(LateFetch(marked, later)).fetched == later[156..] + marked[44..]
  {
    LateFetchTakes(marked, later);
    hide Run, Ring, LateFetch, InFrame;
    var taken := InFrame(Late(marked, later), SIZE);
    LateLength(marked, later);
    forall i | 0 <= i < 100 ensures taken[i] == (later[156..] + marked[44..])[i] {
      InFrameAt(Late(marked, later), SIZE, i);
      RingHolds(marked + later, if i < 44 then SIZE + i else i);
    }
  }

  lemma LateLength(marked: seq<bv8>, later: seq<bv8>)
    requires |marked| < SIZE
    ensures |InFrame(Late(marked, later), SIZE)| == |marked|
  {}

  // ----- The end of a frame ----------------------------------------------------------------------------

  ghost predicate TimesInOrder(polls: seq<(nat, nat)>) {
    forall i, j :: 0 <= i < j < |polls| ==> polls[i].0 <= polls[j].0
  }

  /** Every poll from the `j`th on saw `head`. */
  ghost predicate SameHeadSince(polls: seq<(nat, nat)>, j: nat, head: nat) {
    j < |polls| && forall k :: j <= k < |polls| ==> polls[k].1 == head
  }

  ghost predicate TimedBy(polls: seq<(nat, nat)>, j: nat, head: nat, deadline: nat) {
    SameHeadSince(polls, j, head) && deadline == (polls[j].0 + QUIET_MS) % TICKS
  }

  /** While receiving, the deadline was set by some poll, and all polls since saw the same head. */
  ghost predicate Timed(h: History) {
    h.rx.line == Receiving ==>
      exists j: nat :: TimedBy(h.polls, j, h.rx.lastHead, h.rx.deadline)
  }

  lemma StepTimed(h: History, e: Event)
    requires InRange(h.rx) && Timed(h)
    ensures Timed(After(h, e))
  {
    hide Ring, Taken;
    var g := After(h, e);
    if e.Poll? && g.rx.line == Receiving {
      if h.rx.line == Receiving && DmaHead(h.rx) == h.rx.lastHead {
        var j: nat :| TimedBy(h.polls, j, h.rx.lastHead, h.rx.deadline);
        assert TimedBy(g.polls, j, g.rx.lastHead, g.rx.deadline);
      } else {
        assert TimedBy(g.polls, |h.polls|, g.rx.lastHead, g.rx.deadline);
      }
    }
  }

  lemma {:induction false} RunTimed(events: seq<Event>)
    ensures Timed(Run(events))
  {
    if events != [] {
      RunTimed(events[..|events| - 1]);
      StepTimed(Run(events[..|events| - 1]), events[|events| - 1]);
    }
  }

  /** A poll ends a frame only if polls spanning at least 3 ms, this one included, all saw the same
      head, also across a wrap of the 32-bit tick. */
  lemma FrameEndsAfterSilence(events: seq<Event>, ms: nat)
    requires TimesInOrder(Run(events + [Poll(ms)]).polls)
    requires Marks(Run(events).rx, ms % TICKS)
    ensures
      var polls := Run(events + [Poll(ms)]).polls;
      exists j: nat :: SameHeadSince(polls, j, polls[|polls| - 1].1) && ms - polls[j].0 >= 3
  {
    hide Run, Polled, Marks, TimesInOrder, SameHeadSince;
    RunAppend(events, Poll(ms));
    RunTimed(events);
    MarkMeansSilence(Run(events), ms);
  }

  lemma RunAppend(events: seq<Event>, e: Event)
    ensures Run(events + [e]) == After(Run(events), e)
  {
    hide After;
    assert (events + [e])[..|events|] == events;
  }

  lemma MarkMeansSilence(h: History, ms: nat)
    requires Timed(h) && Marks(h.rx, ms % TICKS)
    requires TimesInOrder(h.polls + [(ms, DmaHead(h.rx))])
    ensures
      var polls := h.polls + [(ms, DmaHead(h.rx))];
      exists j: nat :: SameHeadSince(polls, j, polls[|polls| - 1].1) && ms - polls[j].0 >= 3
  {
    hide Reached;
    assert Reached(ms % TICKS, h.rx.deadline) by { MarkReached(h, ms); }
    var polls := h.polls + [(ms, DmaHead(h.rx))];
    var j: nat :| TimedBy(h.polls, j, h.rx.lastHead, h.rx.deadline);
    assert polls[j].0 <= polls[|h.polls|].0;
    ReachedMeansElapsed(ms, polls[j].0, QUIET_MS);
    assert SameHeadSince(polls, j, polls[|polls| - 1].1);
  }

  lemma MarkReached(h: History, ms: nat)
    requires Marks(h.rx, ms % TICKS)
    ensures Reached(ms % TICKS, h.rx.deadline)
  {
  }

  ghost function PollAll(s: Rx, times: seq<nat>): Rx
    decreases times
  {
    if times == [] then s else PollAll(Polled(s, times[0] % TICKS), times[1..])
  }

  ghost predicate Nondecreasing(times: seq<nat>) {
    forall i, j :: 0 <= i <= j < |times| ==> times[i] <= times[j]
  }

  /** A deadline is running since the poll at `start`, and nothing has arrived in the meantime. */
  predicate Pending(s: Rx, start: nat) {
    s.line == Receiving && DmaHead(s) == s.lastHead && s.deadline == (start + QUIET_MS) % TICKS
  }

  /** The next poll will notice unread bytes and start a deadline. */
  predicate Fresh(s: Rx) {
    if s.line == Idle then !s.ready && DmaHead(s) != s.tail else DmaHead(s) != s.lastHead
  }

  predicate Ended(s: Rx, g: Rx) {
    g == s.(line := Idle, lastHead := g.lastHead, deadline := g.deadline, frameHead := DmaHead(s), ready := true)
  }

  lemma {:induction false} EndedStays(s: Rx, g: Rx, times: seq<nat>)
    requires Ended(s, g)
    ensures PollAll(g, times) == g
    decreases times
  {
    if times != [] {
      EndedStays(s, g, times[1..]);
    }
  }

  lemma {:induction false} PendingEnds(s: Rx, start: nat, times: seq<nat>)
    requires Pending(s, start) && times != [] && Nondecreasing(times) && start <= times[0]
    requires 3 <= times[|times| - 1] - start < 3 + 0x8000_0000
    ensures Ended(s, PollAll(s, times))
    decreases times
  {
    hide Reached;
    assert times[0] <= times[|times| - 1];
    ReachedMeansElapsed(times[0], start, QUIET_MS);
    var next := Polled(s, times[0] % TICKS);
    if times[0] - start >= QUIET_MS {
      EndedStays(s, next, times[1..]);
    } else {
      assert next == s;
      PendingEnds(s, start, times[1..]);
    }
  }

  /** With unread bytes on a silent line and no frame waiting, polls that span at least 3 ms always end
      the frame at the last byte. The span counts from the first poll, or from the earlier poll that
      started a deadline still running; it may cross a wrap of the tick but not exceed 2^31 ms. */
  lemma SilenceEndsFrame(s: Rx, start: nat, times: seq<nat>)
    requires times != [] && Nondecreasing(times)
    requires if Pending(s, start) then start <= times[0] else Fresh(s) && start == times[0]
    requires 3 <= times[|times| - 1] - start < 3 + 0x8000_0000
    ensures Ended(s, PollAll(s, times))
  {
    if Pending(s, start) {
      PendingEnds(s, start, times);
    } else {
      var next := Polled(s, start % TICKS);
      assert ((start % TICKS) + QUIET_MS) % TICKS == (start + QUIET_MS) % TICKS;
      PendingEnds(next, start, times[1..]);
    }
  }

  /** While nothing is unread and no deadline runs, polling ends nothing, however long the silence. */
  lemma {:induction false} SilentLineStays(s: Rx, times: seq<nat>)
    requires s.line == Idle && DmaHead(s) == s.tail
    ensures PollAll(s, times) == s
    decreases times
  {
    if times != [] {
      assert Polled(s, times[0] % TICKS) == s;
      SilentLineStays(s, times[1..]);
    }
  }

  /** A frame is fetched once: until it is flagged again there is nothing more to take. */
  lemma FetchedOnce(s: Rx, n: nat, times: seq<nat>, m: nat)
    requires InRange(s) && s.ready && n != 0
    requires s.line == Idle && s.frameHead == DmaHead(s) && |Taken(s, n)| == FrameLength(s)
    ensures
      var after := Fetched(s, n);
      PollAll(after, times) == after && Taken(after, m) == [] && Fetched(after, m) == after
  {
    var after := Fetched(s, n);
    assert after.tail == DmaHead(after);
    SilentLineStays(after, times);
  }
}
