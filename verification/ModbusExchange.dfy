/** A whole exchange over the line: a frame arrives, the hardware or a silence ends it, and it is processed as
    the one frame it is. */
module ModbusExchange {
  import opened Ticks
  import opened Crc16
  import opened RegisterMap
  import opened FrameQueue
  import opened ModbusSlave
  import opened ModbusRegisters
  import opened ModbusMaster
  import opened ModbusPipeline
  import UartReceiver

  ghost predicate Valid(t: Trace) {
    Sound(t.pipe) && UartReceiver.InRange(t.history.rx)
  }

  // ----- Following events ------------------------------------------------------------------------------------

  function Follow(t: Trace, events: seq<Event>): (u: Trace)
    requires Sound(t.pipe) && UartReceiver.InRange(t.history.rx)
    ensures Sound(u.pipe) && UartReceiver.InRange(u.history.rx)
  {
    if events == [] then t else Next(Follow(t, events[..|events| - 1]), events[|events| - 1])
  }

  /** Following further events continues a run. */
  lemma {:induction false} FollowRun(slave: Slave, before: seq<Event>, events: seq<Event>)
    ensures ModbusPipeline.Run(slave, before + events) == Follow(ModbusPipeline.Run(slave, before), events)
  {
    hide Next;
    if events == [] {
      assert before + events == before;
    } else {
      var n := |events| - 1;
      assert (before + events)[..|before| + n] == before + events[..n];
      FollowRun(slave, before, events[..n]);
    }
  }

  lemma {:induction false} FollowConcat(t: Trace, a: seq<Event>, b: seq<Event>)
    requires Valid(t)
    ensures Follow(t, a + b) == Follow(Follow(t, a), b)
  {
    hide Next;
    if b == [] {
      assert a + b == a;
    } else {
      var n := |b| - 1;
      assert (a + b)[..|a| + n] == a + b[..n];
      FollowConcat(t, a, b[..n]);
    }
  }

  /** The bytes that arrive during some events, in order. */
  function BytesOf(events: seq<Event>): seq<bv8> {
    if events == [] then []
    else
      var last := events[|events| - 1];
      BytesOf(events[..|events| - 1]) + if last.Byte? then [last.b] else []
  }

  predicate NoBytes(events: seq<Event>) {
    forall i :: 0 <= i < |events| ==> !events[i].Byte?
  }

  // ----- Where an exchange stands ------------------------------------------------------------------------------

  /** Everything received has been fetched and processed. A deadline may still be running, and the ready flag
      may be up, left over from earlier frames. */
  ghost predicate Settled(t: Trace) {
    Valid(t) && Drained(t) && UartReceiver.Conserved(t.history) && |t.history.fetched| == |t.history.rx.stream|
  }

  /** Since the settled trace `t` the bytes `m` have arrived and wait, all of them or none marked as a frame;
      nothing else has changed. */
  ghost predicate Waiting(t: Trace, u: Trace, m: seq<bv8>) {
    && Valid(u) && Drained(u) && UartReceiver.Conserved(u.history)
    && u.history.rx.stream == t.history.rx.stream + m
    && u.history.fetched == t.history.fetched
    && u.history.frozen in {|t.history.rx.stream|, |t.history.rx.stream + m|}
    && u == t.(pipe := t.pipe.(rx := u.pipe.rx), history := u.history)
  }

  /** All of them are marked. */
  ghost predicate Marked(u: Trace) {
    u.history.frozen == |u.history.rx.stream|
  }

  /** They have been processed, once and as one frame, in the round `e`: its time stamp and environment are the
      frame's, what the slave sent has left, and all is settled again. */
  ghost predicate Done(t: Trace, u: Trace, m: seq<bv8>, e: Event)
    requires Valid(t) && |m| <= FRAME_BYTES && e.Round?
  {
    var item := t.pipe.frame.Filled(m, e.us);
    var o := Processed(t.pipe.slave, item, e.env);
    && Settled(u)
    && u.history.rx.stream == t.history.rx.stream + m
    && u.processed == t.processed + [m]
    && u.pipe.slave == o.slave && u.pipe.frame == item && u.sent == t.sent + o.sent
  }

  ghost predicate DoneDuring(t: Trace, u: Trace, m: seq<bv8>, events: seq<Event>)
    requires Valid(t) && |m| <= FRAME_BYTES
  {
    exists e :: e in events && e.Round? && Done(t, u, m, e)
  }

  // ----- One event -----------------------------------------------------------------------------------------------

  lemma PollKeeps(h: UartReceiver.History, ms: nat)
    requires UartReceiver.InRange(h.rx)
    ensures
      var polled := UartReceiver.After(h, UartReceiver.Poll(ms));
      && polled.rx.stream == h.rx.stream && polled.rx.tail == h.rx.tail && polled.fetched == h.fetched
      && polled.frozen in {h.frozen, |h.rx.stream|}
  {
    hide UartReceiver.Marks;
  }

  lemma LineStep(t: Trace, u: Trace, m: seq<bv8>, e: UartReceiver.Event)
    requires Settled(t) && Waiting(t, u, m) && |m| < UartReceiver.SIZE && !e.Byte? && !e.Fetch?
    ensures Waiting(t, OnLine(u, e), m)
  {
    hide UartReceiver.Ring, UartReceiver.Polled, UartReceiver.Marks;
    UartReceiver.StepConserves(u.history, e);
    if e.Poll? {
      PollKeeps(u.history, e.ms);
    }
  }

  /** What a round does is decided after its poll: a frame that is ready and marked is processed, anything
      else goes on waiting. */
  lemma RoundStep(t: Trace, u: Trace, m: seq<bv8>, ms: nat, us: nat, env: Env)
    requires Settled(t) && Waiting(t, u, m) && |m| < UartReceiver.SIZE
    ensures
      var polled := UartReceiver.After(u.history, UartReceiver.Poll(ms));
      var v := InRound(u, ms, us, env);
      if m != [] && polled.rx.ready && polled.frozen == |polled.rx.stream| then Done(t, v, m, Round(ms, us, env))
      else Waiting(t, v, m) && v.history.frozen == polled.frozen && v.history.rx == polled.rx.(ready := false)
  {
    hide UartReceiver.Ring, UartReceiver.Polled, UartReceiver.Marks, UartReceiver.InFrame, Processed;
    var poll := UartReceiver.Poll(ms);
    var polled := UartReceiver.After(u.history, poll);
    PollKeeps(u.history, ms);
    UartReceiver.StepConserves(u.history, poll);
    assert polled.rx == UartReceiver.Polled(u.pipe.rx, ms % TICKS);
    RoundDrains(u, ms, us, env);
    RoundConserves(u, ms, us, env);
    if polled.rx.ready {
      UartReceiver.TakenIsStream(polled, SCRATCH);
      if m != [] && polled.frozen == |polled.rx.stream| {
        assert FetchedNow(u.pipe, ms) == m;
        assert Received(u.pipe, ms, us).queue == Fifo([Message(m, us)], 0);
      } else {
        assert FetchedNow(u.pipe, ms) == [];
      }
    }
  }

  ghost predicate Flagged(u: Trace) {
    u.history.rx.ready
  }

  /** The frame is marked and ready, or a deadline that started at `start` is running out. */
  ghost predicate Armed(u: Trace, start: nat) {
    UartReceiver.Pending(u.history.rx, start) || (Marked(u) && Flagged(u))
  }

  /** A round at least 3 ms after `start`, and less than 2^31 ms later. */
  predicate Spans(e: Event, start: nat) {
    e.Round? && 3 <= e.ms - start < 3 + 0x8000_0000
  }

  /** A poll keeps a running deadline, or marks the frame; once the silence is long enough it marks. */
  lemma PollWithDeadline(h: UartReceiver.History, ms: nat, start: nat)
    requires UartReceiver.InRange(h.rx) && UartReceiver.Pending(h.rx, start)
    ensures
      var polled := UartReceiver.After(h, UartReceiver.Poll(ms));
      var marked := polled.frozen == |polled.rx.stream| && polled.rx.ready;
      && (marked || (polled.rx == h.rx && polled.frozen == h.frozen))
      && (3 <= ms - start < 3 + 0x8000_0000 ==> marked)
  {
    hide Reached, UartReceiver.Ring;
    if start <= ms {
      ReachedMeansElapsed(ms, start, UartReceiver.QUIET_MS);
    }
  }

  lemma PollKeepsFlags(h: UartReceiver.History, ms: nat)
    requires UartReceiver.InRange(h.rx)
    ensures h.rx.ready ==> UartReceiver.After(h, UartReceiver.Poll(ms)).rx.ready
  {
    hide Reached, UartReceiver.Ring;
  }

  ghost predicate Advances(u: Trace, v: Trace, e: Event, start: nat) {
    && (Marked(u) || e.IdleInterrupt? ==> Marked(v))
    && (e.SysTick? ==> Flagged(v))
    && (Marked(u) && Flagged(u) ==> !e.Round? && Flagged(v))
    && (Armed(u, start) ==> Armed(v, start) && !Spans(e, start))
  }

  /** After any event but a byte, the frame has just been processed, or it waits on, and whatever has been
      achieved towards its end stands. */
  lemma EventStep(t: Trace, u: Trace, m: seq<bv8>, e: Event, start: nat)
    requires Settled(t) && Waiting(t, u, m) && 0 < |m| < UartReceiver.SIZE && !e.Byte?
    ensures (e.Round? && Done(t, Next(u, e), m, e)) || (Waiting(t, Next(u, e), m) && Advances(u, Next(u, e), e, start))
  {
    hide UartReceiver.Ring, UartReceiver.Polled, UartReceiver.Marks, InRound, Done;
    match e
    case IdleInterrupt =>
      LineStep(t, u, m, UartReceiver.IdleInterrupt);
    case SysTick =>
      LineStep(t, u, m, UartReceiver.SysTick);
    case Poll(ms) =>
      LineStep(t, u, m, UartReceiver.Poll(ms));
      PollMeans(u, ms, start);
    case Round(ms, us, env) =>
      RoundStep(t, u, m, ms, us, env);
      PollMeans(u, ms, start);
  }

  lemma PollMeans(u: Trace, ms: nat, start: nat)
    requires Valid(u)
    ensures
      var polled := UartReceiver.After(u.history, UartReceiver.Poll(ms));
      var marked := polled.frozen == |polled.rx.stream|;
      && polled.rx.stream == u.history.rx.stream
      && (Marked(u) ==> marked)
      && (Flagged(u) ==> polled.rx.ready)
      && (UartReceiver.Pending(u.history.rx, start) ==>
        && ((marked && polled.rx.ready) || UartReceiver.Pending(polled.rx, start))
        && (3 <= ms - start < 3 + 0x8000_0000 ==> marked && polled.rx.ready))
  {
    hide UartReceiver.Ring, UartReceiver.After, UartReceiver.Pending;
    PollKeeps(u.history, ms);
    PollKeepsFlags(u.history, ms);
    if UartReceiver.Pending(u.history.rx, start) {
      PollWithDeadline(u.history, ms, start);
    }
  }

  // ----- Many events ---------------------------------------------------------------------------------------------

  lemma {:induction false} DoneStays(t: Trace, u: Trace, m: seq<bv8>, e: Event, rest: seq<Event>)
    requires Valid(t) && |m| <= FRAME_BYTES && e.Round? && Done(t, u, m, e) && NoBytes(rest)
    ensures Done(t, Follow(u, rest), m, e) && Waiting(u, Follow(u, rest), [])
  {
    hide Processed, Next;
    if rest == [] {
      assert u.history.rx.stream + [] == u.history.rx.stream;
    } else {
      var n := |rest| - 1;
      DoneStays(t, u, m, e, rest[..n]);
      SettledStep(u, Follow(u, rest[..n]), rest[n]);
      NothingMore(t, u, m, e, Follow(u, rest));
    }
  }

  /** On a settled line no event but a byte does anything. */
  lemma SettledStep(t: Trace, u: Trace, e: Event)
    requires Settled(t) && Waiting(t, u, []) && !e.Byte?
    ensures Waiting(t, Next(u, e), [])
  {
    hide UartReceiver.Ring, UartReceiver.Polled, UartReceiver.Marks, InRound, OnLine, Settled, Waiting;
    match e
    case IdleInterrupt => LineStep(t, u, [], UartReceiver.IdleInterrupt);
    case SysTick => LineStep(t, u, [], UartReceiver.SysTick);
    case Poll(ms) => LineStep(t, u, [], UartReceiver.Poll(ms));
    case Round(ms, us, env) => RoundStep(t, u, [], ms, us, env);
  }

  lemma NothingMore(t: Trace, u: Trace, m: seq<bv8>, e: Event, v: Trace)
    requires Valid(t) && |m| <= FRAME_BYTES && e.Round? && Done(t, u, m, e) && Waiting(u, v, [])
    ensures Done(t, v, m, e)
  {
    hide Processed;
    assert u.history.rx.stream + [] == u.history.rx.stream;
  }

  lemma DonePast(t: Trace, u: Trace, m: seq<bv8>, e: Event, rest: seq<Event>, k: nat)
    requires Valid(t) && Valid(u) && |m| <= FRAME_BYTES && k <= |rest| && NoBytes(rest) && e.Round?
    requires Done(t, Follow(u, rest[..k]), m, e)
    ensures Done(t, Follow(u, rest), m, e)
  {
    hide Done, Follow;
    assert NoBytes(rest[k..]);
    assert rest == rest[..k] + rest[k..];
    FollowConcat(u, rest[..k], rest[k..]);
    DoneStays(t, Follow(u, rest[..k]), m, e, rest[k..]);
  }

  lemma DoneDuringPrefix(t: Trace, u: Trace, m: seq<bv8>, rest: seq<Event>, k: nat)
    requires Valid(t) && Valid(u) && |m| < UartReceiver.SIZE && k <= |rest| && NoBytes(rest)
    requires DoneDuring(t, Follow(u, rest[..k]), m, rest[..k])
    ensures DoneDuring(t, Follow(u, rest), m, rest)
  {
    hide Done, Follow, NoBytes;
    var e :| e in rest[..k] && e.Round? && Done(t, Follow(u, rest[..k]), m, e);
    DonePast(t, u, m, e, rest, k);
    assert e in rest;
  }

  lemma DoneNow(t: Trace, u: Trace, m: seq<bv8>, rest: seq<Event>)
    requires Valid(t) && Valid(u) && |m| <= FRAME_BYTES && rest != []
    requires
      var n := |rest| - 1;
      rest[n].Round? && Done(t, Next(Follow(u, rest[..n]), rest[n]), m, rest[n])
    ensures DoneDuring(t, Follow(u, rest), m, rest)
  {
    hide Done, Next;
    var e := rest[|rest| - 1];
    assert e in rest && e.Round? && Done(t, Follow(u, rest), m, e);
  }

  lemma FollowNone(u: Trace)
    requires Valid(u)
    ensures Follow(u, []) == u
  {}

  /** One more event: done already, done now, or one step further. */
  lemma OneMore(t: Trace, u: Trace, m: seq<bv8>, rest: seq<Event>, start: nat)
    requires Settled(t) && Valid(u) && 0 < |m| < UartReceiver.SIZE && NoBytes(rest) && rest != []
    requires
      var n := |rest| - 1;
      var v := Follow(u, rest[..n]);
      DoneDuring(t, v, m, rest[..n]) || Waiting(t, v, m)
    ensures
      var n := |rest| - 1;
      var v, w := Follow(u, rest[..n]), Follow(u, rest);
      || DoneDuring(t, w, m, rest)
      || (!DoneDuring(t, v, m, rest[..n]) && Waiting(t, v, m) && Waiting(t, w, m) && Advances(v, w, rest[n], start))
  {
    assert Valid(t);
    hide Next, Waiting, Done, Settled, DoneDuring, Advances;
    var n := |rest| - 1;
    if DoneDuring(t, Follow(u, rest[..n]), m, rest[..n]) {
      DoneDuringPrefix(t, u, m, rest, n);
    } else {
      EventStep(t, Follow(u, rest[..n]), m, rest[n], start);
      if rest[n].Round? && Done(t, Next(Follow(u, rest[..n]), rest[n]), m, rest[n]) {
        DoneNow(t, u, m, rest);
      }
    }
  }

  // The rest is about the course of an exchange alone: what each prefix of the events has achieved, and which
  // events count.

  datatype Status = Status(done: bool, waiting: bool, marked: bool, flagged: bool, armed: bool)

  datatype Beat = Beat(idle: bool, timer: bool, round: bool, spans: bool)

  ghost function StatusAt(t: Trace, u: Trace, m: seq<bv8>, rest: seq<Event>, start: nat): Status
    requires Valid(t) && Valid(u) && |m| <= FRAME_BYTES
  {
    var v := Follow(u, rest);
    Status(DoneDuring(t, v, m, rest), Waiting(t, v, m), Marked(v), Flagged(v), Armed(v, start))
  }

  function BeatOf(e: Event, start: nat): Beat {
    Beat(e.IdleInterrupt?, e.SysTick?, e.Round?, Spans(e, start))
  }

  predicate Moves(s: Status, b: Beat, next: Status) {
    || next.done
    || (&& !s.done && s.waiting && next.waiting
        && (s.marked || b.idle ==> next.marked)
        && (b.timer ==> next.flagged)
        && (s.marked && s.flagged ==> !b.round && next.flagged)
        && (s.armed ==> next.armed && !b.spans))
  }

  predicate Course(ss: seq<Status>, bs: seq<Beat>) {
    && |ss| == |bs| + 1 && ss[0].waiting
    && forall k :: 0 <= k < |bs| ==> (ss[k].done || ss[k].waiting ==> Moves(ss[k], bs[k], ss[k + 1]))
  }

  /** A frame on its course waits or is done. */
  lemma {:induction false} CourseHolds(ss: seq<Status>, bs: seq<Beat>, k: nat)
    requires Course(ss, bs) && k < |ss|
    ensures ss[k].done || ss[k].waiting
  {
    if k > 0 {
      CourseHolds(ss, bs, k - 1);
      assert Moves(ss[k - 1], bs[k - 1], ss[k]);
    }
  }

  /** Done is done. */
  lemma {:induction false} DoneForGood(ss: seq<Status>, bs: seq<Beat>, k: nat, n: nat)
    requires Course(ss, bs) && k <= n < |ss| && ss[k].done
    ensures ss[n].done
  {
    if k < n {
      DoneForGood(ss, bs, k, n - 1);
      assert Moves(ss[n - 1], bs[n - 1], ss[n]);
    }
  }

  /** After the interrupt the frame is marked, and after the timer as well it is ready, until it is done. */
  lemma {:induction false} InterruptedCourse(ss: seq<Status>, bs: seq<Beat>, i: nat, j: nat, n: nat)
    requires Course(ss, bs) && i < j < |bs| && n < |ss| && bs[i].idle && bs[j].timer
    ensures ss[n].done || ((i < n ==> ss[n].marked) && (j < n ==> ss[n].flagged))
  {
    if n > 0 {
      InterruptedCourse(ss, bs, i, j, n - 1);
      CourseHolds(ss, bs, n - 1);
      assert Moves(ss[n - 1], bs[n - 1], ss[n]);
    }
  }

  lemma {:induction false} ArmedCourse(ss: seq<Status>, bs: seq<Beat>, a: nat, n: nat)
    requires Course(ss, bs) && a <= n < |ss| && ss[a].armed
    ensures ss[n].done || ss[n].armed
  {
    if a < n {
      ArmedCourse(ss, bs, a, n - 1);
      CourseHolds(ss, bs, n - 1);
      assert Moves(ss[n - 1], bs[n - 1], ss[n]);
    }
  }

  /** Interrupt, timer and round, in this order, end the course; so does a round that spans an armed one. */
  lemma CourseEnds(ss: seq<Status>, bs: seq<Beat>, i: nat, j: nat, k: nat)
    requires Course(ss, bs) && k < |bs|
    requires (i < j < k && bs[i].idle && bs[j].timer && bs[k].round) || (i <= k && ss[i].armed && bs[k].spans)
    ensures ss[|bs|].done
  {
    if i < j < k && bs[i].idle && bs[j].timer && bs[k].round {
      InterruptedCourse(ss, bs, i, j, k);
    } else {
      ArmedCourse(ss, bs, i, k);
    }
    CourseHolds(ss, bs, k);
    assert Moves(ss[k], bs[k], ss[k + 1]);
    DoneForGood(ss, bs, k + 1, |bs|);
  }

  ghost function Statuses(t: Trace, u: Trace, m: seq<bv8>, rest: seq<Event>, start: nat): (ss: seq<Status>)
    requires Valid(t) && Valid(u) && |m| <= FRAME_BYTES
    ensures |ss| == |rest| + 1
  {
    seq(|rest| + 1, k requires 0 <= k <= |rest| => StatusAt(t, u, m, rest[..k], start))
  }

  function Beats(rest: seq<Event>, start: nat): (bs: seq<Beat>)
    ensures |bs| == |rest|
  {
    seq(|rest|, k requires 0 <= k < |rest| => BeatOf(rest[k], start))
  }

  lemma StatusMoves(t: Trace, u: Trace, m: seq<bv8>, rest: seq<Event>, k: nat, start: nat)
    requires Settled(t) && Valid(u) && 0 < |m| < UartReceiver.SIZE && NoBytes(rest) && k < |rest|
    ensures
      var s, next := StatusAt(t, u, m, rest[..k], start), StatusAt(t, u, m, rest[..k + 1], start);
      s.done || s.waiting ==> Moves(s, BeatOf(rest[k], start), next)
  {
    assert Valid(t);
    hide Follow, Waiting, Settled, DoneDuring, Armed, Spans, Marked, Flagged;
    var upto := rest[..k + 1];
    assert upto[..k] == rest[..k];
    if DoneDuring(t, Follow(u, rest[..k]), m, rest[..k]) || Waiting(t, Follow(u, rest[..k]), m) {
      OneMore(t, u, m, upto, start);
    }
  }

  lemma FollowsCourse(t: Trace, u: Trace, m: seq<bv8>, rest: seq<Event>, start: nat)
    requires Settled(t) && Waiting(t, u, m) && 0 < |m| < UartReceiver.SIZE && NoBytes(rest)
    ensures Valid(t) && Valid(u) && Course(Statuses(t, u, m, rest, start), Beats(rest, start))
  {
    assert Valid(t) && Valid(u);
    FollowNone(u);
    hide Follow, Waiting, Settled, DoneDuring, Armed, Spans, Marked, Flagged, Moves, BeatOf;
    var ss, bs := Statuses(t, u, m, rest, start), Beats(rest, start);
    assert ss[0] == StatusAt(t, u, m, rest[..0], start) && rest[..0] == [];
    assert ss[0].waiting;
    hide StatusAt;
    forall k | 0 <= k < |bs| ensures ss[k].done || ss[k].waiting ==> Moves(ss[k], bs[k], ss[k + 1]) {
      StatusMoves(t, u, m, rest, k, start);
    }
  }

  // ----- What ends a frame ---------------------------------------------------------------------------------------

  /** The hardware's way: the IDLE interrupt, later the timer, later a round, whatever lies between. */
  ghost predicate Interrupted(rest: seq<Event>) {
    exists i, j, k :: InterruptedAt(rest, i, j, k)
  }

  predicate InterruptedAt(rest: seq<Event>, i: nat, j: nat, k: nat) {
    i < j < k < |rest| && rest[i].IdleInterrupt? && rest[j].SysTick? && rest[k].Round?
  }

  /** The polled way: at some point a deadline is running since `start`, and a round follows when the silence
      has been long enough, whatever lies between. */
  ghost predicate Silenced(u: Trace, rest: seq<Event>)
    requires Valid(u)
  {
    exists a, k, start :: SilencedAt(u, rest, a, k, start)
  }

  ghost predicate SilencedAt(u: Trace, rest: seq<Event>, a: nat, k: nat, start: nat)
    requires Valid(u)
  {
    a <= k < |rest| && UartReceiver.Pending(Follow(u, rest[..a]).history.rx, start) && Spans(rest[k], start)
  }

  /** What ends a frame: the hardware's way, or the polled way. */
  ghost predicate Ends(u: Trace, rest: seq<Event>)
    requires Valid(u)
  {
    Interrupted(rest) || Silenced(u, rest)
  }

  lemma LastStatus(t: Trace, u: Trace, m: seq<bv8>, rest: seq<Event>, start: nat)
    requires Valid(t) && Valid(u) && |m| <= FRAME_BYTES
    ensures Statuses(t, u, m, rest, start)[|rest|] == StatusAt(t, u, m, rest, start)
  {
    hide StatusAt, Follow;
    assert rest[..|rest|] == rest;
  }

  lemma EndedIsDone(t: Trace, u: Trace, m: seq<bv8>, rest: seq<Event>)
    requires Settled(t) && Waiting(t, u, m) && 0 < |m| < UartReceiver.SIZE && NoBytes(rest)
    requires Valid(u) && Ends(u, rest)
    ensures DoneDuring(t, Follow(u, rest), m, rest)
  {
    assert Valid(t);
    hide Follow, Waiting, Settled, DoneDuring, Marked, Flagged, Course, Spans, Beats, Statuses;
    if Interrupted(rest) {
      var i, j, k :| InterruptedAt(rest, i, j, k);
      FollowsCourse(t, u, m, rest, 0);
      BeatsAre(rest, 0);
      CourseEnds(Statuses(t, u, m, rest, 0), Beats(rest, 0), i, j, k);
      LastStatus(t, u, m, rest, 0);
    } else {
      var a, k, start :| SilencedAt(u, rest, a, k, start);
      FollowsCourse(t, u, m, rest, start);
      BeatsAre(rest, start);
      StatusesAre(t, u, m, rest, start, a);
      CourseEnds(Statuses(t, u, m, rest, start), Beats(rest, start), a, 0, k);
      LastStatus(t, u, m, rest, start);
    }
  }

  lemma BeatsAre(rest: seq<Event>, start: nat)
    ensures forall k :: 0 <= k < |rest| ==> Beats(rest, start)[k] == BeatOf(rest[k], start)
  {}

  lemma StatusesAre(t: Trace, u: Trace, m: seq<bv8>, rest: seq<Event>, start: nat, k: nat)
    requires Valid(t) && Valid(u) && |m| <= FRAME_BYTES && k <= |rest|
    ensures Statuses(t, u, m, rest, start)[k] == StatusAt(t, u, m, rest[..k], start)
  {
    hide StatusAt, Follow;
  }

  /** Whatever happens but a byte, the frame waits whole, or has been processed whole and once. */
  lemma WaitsOrDone(t: Trace, u: Trace, m: seq<bv8>, rest: seq<Event>)
    requires Settled(t) && Waiting(t, u, m) && 0 < |m| < UartReceiver.SIZE && NoBytes(rest)
    ensures Waiting(t, Follow(u, rest), m) || DoneDuring(t, Follow(u, rest), m, rest)
  {
    assert Valid(t) && Valid(u);
    hide Follow, Waiting, Settled, DoneDuring, Marked, Flagged, Course, Beats, Statuses, Armed;
    FollowsCourse(t, u, m, rest, 0);
    CourseHolds(Statuses(t, u, m, rest, 0), Beats(rest, 0), |rest|);
    LastStatus(t, u, m, rest, 0);
  }

  // ----- Arrival ---------------------------------------------------------------------------------------------------

  /** The event ends whatever has arrived so far: an IDLE interrupt, or a poll that marks. */
  predicate Breaks(u: Trace, e: Event) {
    || e.IdleInterrupt?
    || (e.Poll? && UartReceiver.Marks(u.history.rx, e.ms % TICKS))
    || (e.Round? && UartReceiver.Marks(u.history.rx, e.ms % TICKS))
  }

  /** The bytes of a frame may arrive among timer expiries, polls and rounds, as long as nothing breaks it. */
  ghost predicate Unbroken(t: Trace, events: seq<Event>)
    requires Valid(t)
  {
    forall k :: 0 <= k < |events| ==> !BreaksAt(t, events, k)
  }

  ghost predicate BreaksAt(t: Trace, events: seq<Event>, k: nat)
    requires Valid(t) && k < |events|
  {
    Breaks(Follow(t, events[..k]), events[k])
  }

  lemma ByteStep(t: Trace, u: Trace, m: seq<bv8>, b: bv8)
    requires Settled(t) && Waiting(t, u, m) && |m| < UartReceiver.SIZE - 1
    requires u.history.frozen == t.history.frozen == |t.history.rx.stream|
    ensures Waiting(t, Next(u, Byte(b)), m + [b]) && Next(u, Byte(b)).history.frozen == t.history.frozen
  {
    hide UartReceiver.Ring;
    UartReceiver.StepConserves(u.history, UartReceiver.Byte(b));
    assert u.history.rx.stream + [b] == t.history.rx.stream + (m + [b]);
  }

  lemma UnmarkedPoll(h: UartReceiver.History, ms: nat)
    requires UartReceiver.InRange(h.rx) && !UartReceiver.Marks(h.rx, ms % TICKS)
    ensures UartReceiver.After(h, UartReceiver.Poll(ms)).frozen == h.frozen
  {
    hide UartReceiver.Marks, UartReceiver.Polled;
  }

  lemma ArrivalStep(t: Trace, u: Trace, m: seq<bv8>, e: Event)
    requires Settled(t) && Waiting(t, u, m) && |m| < UartReceiver.SIZE && !Breaks(u, e)
    requires e.Byte? ==> |m| < UartReceiver.SIZE - 1
    requires u.history.frozen == t.history.frozen
    ensures
      var v := Next(u, e);
      Waiting(t, v, m + if e.Byte? then [e.b] else []) && v.history.frozen == t.history.frozen
  {
    hide UartReceiver.Ring, UartReceiver.Polled, UartReceiver.Marks, InRound;
    assert u.history.rx.stream == t.history.rx.stream + m;
    assert m + [] == m;
    match e
    case Byte(b) => ByteStep(t, u, m, b);
    case SysTick => LineStep(t, u, m, UartReceiver.SysTick);
    case Poll(ms) =>
      LineStep(t, u, m, UartReceiver.Poll(ms));
      UnmarkedPoll(u.history, ms);
    case Round(ms, us, env) =>
      RoundStep(t, u, m, ms, us, env);
      UnmarkedPoll(u.history, ms);
      PollKeeps(u.history, ms);
    case IdleInterrupt =>
  }

  lemma SettledWaits(t: Trace)
    requires Settled(t)
    ensures Waiting(t, t, []) && t.history.frozen == |t.history.rx.stream|
  {
    assert t.history.rx.stream + [] == t.history.rx.stream;
  }

  /** The bytes of an unbroken arrival wait together. */
  lemma {:induction false} Arrives(t: Trace, events: seq<Event>)
    requires Settled(t) && Valid(t) && Unbroken(t, events) && |BytesOf(events)| < UartReceiver.SIZE
    ensures
      var u := Follow(t, events);
      Waiting(t, u, BytesOf(events)) && u.history.frozen == t.history.frozen
  {
    hide Next, Waiting, Settled, Breaks;
    if events == [] {
      SettledWaits(t);
    } else {
      var n := |events| - 1;
      UnbrokenPart(t, events);
      Arrives(t, events[..n]);
      assert !BreaksAt(t, events, n);
      ArrivalStep(t, Follow(t, events[..n]), BytesOf(events[..n]), events[n]);
    }
  }

  lemma UnbrokenPart(t: Trace, events: seq<Event>)
    requires Valid(t) && Unbroken(t, events) && events != []
    ensures Unbroken(t, events[..|events| - 1])
  {
    hide Follow, Breaks;
    var n := |events| - 1;
    forall k | 0 <= k < n ensures !BreaksAt(t, events[..n], k) {
      assert events[..n][..k] == events[..k];
      assert !BreaksAt(t, events, k);
    }
  }

  // ----- The exchange -----------------------------------------------------------------------------------------------

  /** Frame boundaries: bytes that arrive unbroken on a settled line, fewer than 256, are never split or joined
      to others: whatever happens afterwards but another byte, they wait as a whole, or have been processed,
      once and as that one frame, in one of the rounds. */
  lemma FrameStaysWhole(t: Trace, arrival: seq<Event>, rest: seq<Event>)
    requires Settled(t) && Valid(t) && Unbroken(t, arrival) && NoBytes(rest)
    requires 0 < |BytesOf(arrival)| < 256
    ensures
      var u, m := Follow(t, arrival + rest), BytesOf(arrival);
      Waiting(t, u, m) || DoneDuring(t, u, m, rest)
  {
    hide Follow, BytesOf, Waiting, Settled, DoneDuring, Unbroken;
    Arrives(t, arrival);
    FollowConcat(t, arrival, rest);
    WaitsOrDone(t, Follow(t, arrival), BytesOf(arrival), rest);
  }

  /** They are processed as soon as the hardware or a silence has ended the frame and a round follows. The line
      is then settled again, so that exchanges follow one another. */
  lemma FrameIsProcessed(t: Trace, arrival: seq<Event>, rest: seq<Event>)
    requires Settled(t) && Valid(t) && Unbroken(t, arrival) && NoBytes(rest)
    requires 0 < |BytesOf(arrival)| < 256
    requires Ends(Follow(t, arrival), rest)
    ensures DoneDuring(t, Follow(t, arrival + rest), BytesOf(arrival), rest)
  {
    hide Follow, BytesOf, Waiting, Settled, DoneDuring, Unbroken, Ends;
    Arrives(t, arrival);
    FollowConcat(t, arrival, rest);
    EndedIsDone(t, Follow(t, arrival), BytesOf(arrival), rest);
  }

  /** The firmware starts settled. */
  lemma BeginIsSettled(slave: Slave)
    ensures Settled(Begin(slave)) && ModbusPipeline.Run(slave, []) == Begin(slave)
  {
  }

  // ----- How frames end ----------------------------------------------------------------------------------------------

  /** Interrupt, timer, round: processed at once. */
  lemma HardwareEnds(u: Trace, ms: nat, us: nat, env: Env)
    requires Valid(u)
    ensures Ends(u, [IdleInterrupt, SysTick, Round(ms, us, env)])
  {
    hide Follow;
    assert InterruptedAt([IdleInterrupt, SysTick, Round(ms, us, env)], 0, 1, 2);
  }

  /** A poll that notices unread bytes starts a deadline, which a silence of 3 ms brings to its end. */
  lemma SilenceEnds(u: Trace, between: seq<Event>, start: nat, last: Event)
    requires Valid(u) && UartReceiver.Fresh(u.history.rx) && Spans(last, start)
    ensures Ends(u, [Poll(start)] + between + [last])
  {
    hide Reached, UartReceiver.Ring;
    var rest := [Poll(start)] + between + [last];
    assert rest[..1] == [Poll(start)] && [Poll(start)][..0] == [];
    assert Follow(u, [Poll(start)]) == Next(Follow(u, []), Poll(start));
    assert SilencedAt(u, rest, 1, |rest| - 1, start);
  }

  /** A round that finds no frame ready starts the deadline just as well. */
  lemma RoundsEnd(u: Trace, first: Event, between: seq<Event>, last: Event)
    requires Valid(u) && UartReceiver.Fresh(u.history.rx) && Drained(u) && !Flagged(u)
    requires first.Round? && Spans(last, first.ms)
    ensures Ends(u, [first] + between + [last])
  {
    hide Reached, UartReceiver.Ring, Worked;
    var rest := [first] + between + [last];
    assert rest[..1] == [first] && [first][..0] == [];
    assert Follow(u, [first]) == Next(Follow(u, []), first);
    assert SilencedAt(u, rest, 1, |rest| - 1, first.ms);
  }

  /** Timer expiries, each followed by a round. */
  function Beating(rounds: seq<Event>): seq<Event> {
    if rounds == [] then []
    else Beating(rounds[..|rounds| - 1]) + [SysTick] + [rounds[|rounds| - 1]]
  }

  /** When a frame does not end: a ready flag that comes before the mark is used up by the next round, and while
      it is up no deadline starts. Timer expiries before every round, without an interrupt, block the frame for
      as long as they go on. */
  lemma {:induction false} PrematureFlagBlocks(t: Trace, u: Trace, m: seq<bv8>, rounds: seq<Event>)
    requires Settled(t) && Waiting(t, u, m) && 0 < |m| < UartReceiver.SIZE
    requires u.history.frozen == t.history.frozen == |t.history.rx.stream|
    requires u.history.rx.line == UartReceiver.Idle
    requires forall i :: 0 <= i < |rounds| ==> rounds[i].Round?
    ensures Valid(u)
    ensures
      var v := Follow(u, Beating(rounds));
      Waiting(t, v, m) && v.history.frozen == t.history.frozen && v.history.rx.line == UartReceiver.Idle
  {
    hide Next, Waiting, Settled;
    assert Valid(u) by { WaitingIsValid(t, u, m); }
    if rounds == [] {
      FollowNone(u);
    } else {
      var n := |rounds| - 1;
      PrematureFlagBlocks(t, u, m, rounds[..n]);
      var before := Beating(rounds[..n]);
      var beating := Beating(rounds);
      assert beating[..|beating| - 1] == before + [SysTick];
      assert (before + [SysTick])[..|before|] == before;
      OneBeat(t, Follow(u, before), m, rounds[n]);
    }
  }

  lemma WaitingIsValid(t: Trace, u: Trace, m: seq<bv8>)
    requires Waiting(t, u, m)
    ensures Valid(u)
  {}

  lemma OneBeat(t: Trace, u: Trace, m: seq<bv8>, e: Event)
    requires Settled(t) && Waiting(t, u, m) && 0 < |m| < UartReceiver.SIZE && e.Round?
    requires u.history.frozen == t.history.frozen == |t.history.rx.stream|
    requires u.history.rx.line == UartReceiver.Idle
    ensures Valid(u)
    ensures
      var v := Next(Next(u, SysTick), e);
      Waiting(t, v, m) && v.history.frozen == t.history.frozen && v.history.rx.line == UartReceiver.Idle
  {
    hide UartReceiver.Ring, InRound;
    LineStep(t, u, m, UartReceiver.SysTick);
    RoundStep(t, Next(u, SysTick), m, e.ms, e.us, e.env);
  }

  // ----- Requests over the line --------------------------------------------------------------------------------

  /** Exactly one reply has been sent since `t`. */
  ghost predicate OneReply(t: Trace, u: Trace) {
    |u.sent| == |t.sent| + 1 && u.sent[..|t.sent|] == t.sent
  }

  lemma MessageSize(message: seq<bv8>)
    ensures |Sealed(message)| == |message| + 2
  {
    hide Crc;
  }

  ghost predicate ReadAnswered(t: Trace, u: Trace, start: nat, n: nat, baudRate: bv16)
    requires start + n <= REGISTERS
  {
    && Settled(u) && SameData(t.pipe.slave, u.pipe.slave)
    && OneReply(t, u) && |u.sent[|t.sent|]| == 5 + 2 * n
    && Carried(u.sent[|t.sent|], n) == HoldingValues(t.pipe.slave.holding, start, n, baudRate)
  }

  lemma ReadExchanged(t: Trace, u: Trace, start: nat, n: nat, e: Event)
    requires Valid(t) && 1 <= n <= 125 && start + n <= REGISTERS && Ready(t.pipe.slave).address != BROADCAST
    requires |Sealed(ReadMessage(Ready(t.pipe.slave).address, start, n))| <= FRAME_BYTES && e.Round?
    requires Done(t, u, Sealed(ReadMessage(Ready(t.pipe.slave).address, start, n)), e)
    ensures ReadAnswered(t, u, start, n, e.env.baudRate)
  {
    hide Settled, Processed, Sealed, ReadMessage, Ready, HoldingValues, Carried, Asks;
    var s := t.pipe.slave;
    var item := t.pipe.frame.Filled(Sealed(ReadMessage(Ready(s).address, start, n)), e.us);
    ReadIsUnderstood(s, start, n, item);
    HoldingIsRead(s, item, e.env);
  }

  /** A read request that arrives unbroken on a settled line is answered, once, with the registers' values, in
      whichever way its end is found. */
  lemma ReadIsAnswered(t: Trace, start: nat, n: nat, arrival: seq<Event>, rest: seq<Event>)
    requires Settled(t) && Valid(t) && Unbroken(t, arrival) && NoBytes(rest) && Ends(Follow(t, arrival), rest)
    requires 1 <= n <= 125 && start + n <= REGISTERS && Ready(t.pipe.slave).address != BROADCAST
    requires BytesOf(arrival) == Sealed(ReadMessage(Ready(t.pipe.slave).address, start, n))
    ensures exists e :: e in rest && e.Round? && ReadAnswered(t, Follow(t, arrival + rest), start, n, e.env.baudRate)
  {
    hide Settled, Sealed, ReadMessage, Ready, Done, ReadAnswered, Follow, BytesOf, Ends, Unbroken;
    MessageSize(ReadMessage(Ready(t.pipe.slave).address, start, n));
    FrameIsProcessed(t, arrival, rest);
    var u := Follow(t, arrival + rest);
    var e :| e in rest && e.Round? && Done(t, u, BytesOf(arrival), e);
    ReadExchanged(t, u, start, n, e);
    assert e in rest && e.Round? && ReadAnswered(t, u, start, n, e.env.baudRate);
  }

  ghost predicate WriteAnswered(t: Trace, u: Trace, start: nat, words: seq<Word>)
    requires start + |words| <= REGISTERS
  {
    var s := t.pipe.slave;
    Settled(u) && OneReply(t, u) && SameData(s.(holding := Written(s.holding, start, words)), u.pipe.slave)
  }

  lemma WriteExchanged(t: Trace, u: Trace, start: nat, words: seq<Word>, e: Event)
    requires Valid(t) && 1 <= |words| <= 123 && start + |words| <= REGISTERS && !HitsCommand(start, |words|)
    requires Ready(t.pipe.slave).address != BROADCAST
    requires |Sealed(WriteMessage(Ready(t.pipe.slave).address, start, words))| <= FRAME_BYTES && e.Round?
    requires Done(t, u, Sealed(WriteMessage(Ready(t.pipe.slave).address, start, words)), e)
    ensures WriteAnswered(t, u, start, words)
  {
    hide Settled, Processed, Sealed, WriteMessage, Ready, Written, Asks, HitsCommand;
    var s := t.pipe.slave;
    var item := t.pipe.frame.Filled(Sealed(WriteMessage(Ready(s).address, start, words)), e.us);
    WriteIsUnderstood(s, start, words, item);
    WriteIsExact(s, item, e.env);
  }

  /** A write request outside the command register is answered once, and has changed exactly the registers it
      names. */
  lemma WriteIsAnswered(t: Trace, start: nat, words: seq<Word>, arrival: seq<Event>, rest: seq<Event>)
    requires Settled(t) && Valid(t) && Unbroken(t, arrival) && NoBytes(rest) && Ends(Follow(t, arrival), rest)
    requires 1 <= |words| <= 123 && start + |words| <= REGISTERS && !HitsCommand(start, |words|)
    requires Ready(t.pipe.slave).address != BROADCAST
    requires BytesOf(arrival) == Sealed(WriteMessage(Ready(t.pipe.slave).address, start, words))
    ensures WriteAnswered(t, Follow(t, arrival + rest), start, words)
  {
    hide Settled, Sealed, WriteMessage, Ready, Done, WriteAnswered, Follow, BytesOf, Ends, Unbroken, HitsCommand;
    MessageSize(WriteMessage(Ready(t.pipe.slave).address, start, words));
    FrameIsProcessed(t, arrival, rest);
    var u := Follow(t, arrival + rest);
    var e :| e in rest && e.Round? && Done(t, u, BytesOf(arrival), e);
    WriteExchanged(t, u, start, words, e);
  }
}
