/** Reachable runs, step for step, in which UI calls fall between the two critical sections of phase 3 and the receiver
    commits what it should not: a frame without its last rectangle, and then a frame the UI has dropped. */
module Witnesses {
  import opened Wire
  import opened SenderState
  import opened SplitPump
  import opened FrameAssembly
  import opened Fidelity
  import opened Runs
  import Bases
  import Races

  // ---- runs ----

  predicate Possible(s: Split, a: Action) { Plain(s) && Legal(s, a) }

  /** From s these actions, one after the other, lead to t. */
  predicate Plays(s: Split, acts: seq<Action>, t: Split, script: Script)
    decreases |acts|
  {
    if acts == [] then s == t
    else Possible(s, acts[0]) && Plays(Act(s, acts[0], script), acts[1..], t, script)
  }

  /** Such a run is one of those the results of Runs are about. */
  lemma {:induction false} PlaysIsRun(s: Split, acts: seq<Action>, t: Split, script: Script)
    requires Plain(s) && Plays(s, acts, t, script)
    ensures LegalRun(s, acts, script) && After(s, acts, script) == t
    decreases |acts|
  {
    hide Act, Plain;
    if acts != [] {
      PlainKept(s, acts[0], script);
      PlaysIsRun(Act(s, acts[0], script), acts[1..], t, script);
    }
  }

  function TickTimes(n: nat): seq<Action> {
    if n == 0 then [] else [Tick] + TickTimes(n - 1)
  }

  lemma PlaysOne(s: Split, a: Action, t: Split, script: Script)
    requires Possible(s, a) && Act(s, a, script) == t
    ensures Plays(s, [a], t, script)
  {
    hide Act;
    assert [a][1..] == [] && Plays(t, [], t, script);
  }

  lemma TickOn(s: Split, mid: Split, n: nat, t: Split, script: Script)
    requires Possible(s, Tick) && Step(s, script) == mid && Plays(mid, TickTimes(n), t, script)
    ensures Plays(s, TickTimes(n + 1), t, script)
  {
    hide Step;
    assert ([Tick] + TickTimes(n))[1..] == TickTimes(n);
  }

  lemma {:induction false} PlaysJoin(s: Split, a: seq<Action>, t: Split, b: seq<Action>, u: Split, script: Script)
    requires Plays(s, a, t, script) && Plays(t, b, u, script)
    ensures Plays(s, a + b, u, script)
    decreases |a|
  {
    hide Act;
    if a == [] {
      assert a + b == b;
    } else {
      PlaysJoin(Act(s, a[0], script), a[1..], t, b, u, script);
      assert (a + b)[1..] == a[1..] + b;
    }
  }

  predicate Delivers(script: Script, n: nat) { forall k | 0 <= k < n :: script(k) == Delivered }

  // ---- a frame of one rectangle on its way ----

  const A := Rect(0, 0, 1, 1, [1, 2])
  const B := Rect(1, 0, 1, 1, [3, 4])
  const C := Rect(0, 0, 1, 1, [5, 6])
  const D := Rect(1, 0, 1, 1, [7, 8])

  const BEGIN_1 := Sent(FrameBegin(1, Full, 2, 1), Delivered, 0)
  const RECT_A := Sent(FrameRect(A), Delivered, 0)
  const END_1 := Sent(FrameEnd(1, 1, 2, false), Delivered, 0)
  const RECT_B := Sent(FrameRect(B), Delivered, 0)
  const BEGIN_2 := Sent(FrameBegin(2, Partial, 2, 1), Delivered, 1)
  const RECT_C := Sent(FrameRect(C), Delivered, 1)
  const BEGIN_3 := Sent(FrameBegin(3, Full, 2, 1), Refused, 2)
  const END_2 := Sent(FrameEnd(2, 1, 2, false), Delivered, 2)

  /** A 2x1 screen and a two-slot queue. */
  const START := Split(Blank(2, 2), Outside)
  const CONFIGURED := Blank(2, 2).(width := 2, height := 1)
  const CONNECTED := CONFIGURED.(connected := true, log := [SessionReset])

  const FRAME_A := Frame(1, Full, 2, 1, [A], false, false)
  const STAGED := CONNECTED.(
    needFull := false, queue := [Slot(true, Full, 1, A)], building := true, frameId := 1, rectCount := 1, byteCount := 2,
    stats := NO_STATS.(queuePeak := 1), hist := [FRAME_A])
  const FREED := STAGED.(
    queue := [], wire := WireFrame(true, 1, Full, 1, 2), stats := NO_STATS.(queuePeak := 1, rectsSent := 1),
    log := [SessionReset, BEGIN_1, RECT_A])

  const WRITE_A := Write(0, 0, 1, 1, Some([1, 2]))

  lemma Staging(script: Script)
    ensures Plays(START, [Configure(2, 1, true)], Split(CONFIGURED, Outside), script)
    ensures Plays(Split(CONFIGURED, Outside), [Connect], Split(CONNECTED, Outside), script)
  {
    PlaysOne(START, Configure(2, 1, true), Split(CONFIGURED, Outside), script);
    PlaysOne(Split(CONFIGURED, Outside), Connect, Split(CONNECTED, Outside), script);
  }

  /** writeRect with nothing in flight opens a frame. */
  lemma Opening(m: Sender, pc: Pc, r: Rect, script: Script)
    requires Plain(Split(m, pc))
    requires m.enabled && m.connected && m.width == 2 && m.height == 1 && m.slots == 2 && m.slotBytes == 2
    requires !InFlight(m) && m.queue == []
    requires r.x + r.w <= 2 && r.y + r.h <= 1 && r.w == r.h == 1 && |r.pixels| == 2
    ensures var f := Opened(m, r);
            var m' := m.(frameId := f.id, building := true, frameType := f.ftype, needFull := false, rectCount := 1,
                         byteCount := 2, queue := [Slot(true, f.ftype, f.id, r)], hist := m.hist + [f],
                         stats := if m.stats.queuePeak < 1 then m.stats.(queuePeak := 1) else m.stats);
            Plays(Split(m, pc), [Write(r.x, r.y, 1, 1, Some(r.pixels))], Split(m', pc), script)
  {
    hide Bytes;
    StartEffect(m, r);
    assert r.pixels[..2] == r.pixels;
    PlaysOne(Split(m, pc), Write(r.x, r.y, 1, 1, Some(r.pixels)), Split(Enqueue(StartFrame(m), r), pc), script);
  }

  /** Five steps of pump for a queue of one slot: seen, taken, begun, streamed, freed. */
  lemma OneSlot(m: Sender, script: Script)
    requires |m.queue| == 1 && m.abortPending.None?
    ensures var held := Hold(m.queue[0]);
            var (m1, active) := if held.isFirst then SendBegin(m, script, held) else (m, true);
            m1.queue == m.queue &&
            var m2 := if active then SendRect(m1, script, held) else m1;
            Plays(Split(m, Outside), TickTimes(5), Split(m2.(queue := []), Popped), script)
  {
    hide SendBegin, SendRect;
    var held := Hold(m.queue[0]);
    BeginLeaves(m, script, held);
    var (m1, active) := if held.isFirst then SendBegin(m, script, held) else (m, true);
    RectLeaves(m1, script, held);
    var m2 := if active then SendRect(m1, script, held) else m1;
    assert Pop(m2) == m2.(queue := []);
    var end := Split(m2.(queue := []), Popped);
    TickOn(Split(m2, Streamed), end, 0, end, script);
    TickOn(Split(m1, Begun(held, active)), Split(m2, Streamed), 1, end, script);
    TickOn(Split(m, Taken(held)), Split(m1, Begun(held, active)), 2, end, script);
    TickOn(Split(m, Looked), Split(m, Taken(held)), 3, end, script);
    TickOn(Split(m, Outside), Split(m, Looked), 4, end, script);
  }

  lemma BeginTaken(m: Sender, script: Script, held: Held)
    requires script(|m.log|) == Delivered && m.width == 2 && m.height == 1
    ensures SendBegin(m, script, held) ==
            (m.(wire := WireFrame(true, held.id, held.ftype, 0, 0),
                log := m.log + [Sent(FrameBegin(held.id, held.ftype, 2, 1), Delivered, Tag(m))]), true)
  {
  }

  lemma BeginRefused(m: Sender, script: Script, held: Held)
    requires script(|m.log|) == Refused && m.width == 2 && m.height == 1
    ensures SendBegin(m, script, held) ==
            (m.(needFull := true, log := m.log + [Sent(FrameBegin(held.id, held.ftype, 2, 1), Refused, Tag(m))]), false)
  {
  }

  lemma RectTaken(m: Sender, script: Script, r: Rect)
    requires script(|m.log|) == Delivered && |m.queue| == 1 && m.queue[0].rect == r && |r.pixels| == 2
    ensures SendRect(m, script, Hold(m.queue[0])) ==
            m.(stats := m.stats.(rectsSent := m.stats.rectsSent + 1),
               wire := m.wire.(rects := m.wire.rects + 1, bytes := m.wire.bytes + 2),
               log := m.log + [Sent(FrameRect(r), Delivered, Tag(m))])
  {
  }

  /** The first slot of a frame, beginning and rectangle both taken. */
  lemma FirstSlot(m: Sender, script: Script, id: u16, t: FrameType, r: Rect)
    requires script(|m.log|) == Delivered == script(|m.log| + 1) && m.width == 2 && m.height == 1
    requires m.queue == [Slot(true, t, id, r)] && m.abortPending.None? && |r.pixels| == 2
    ensures var m' := m.(queue := [], wire := WireFrame(true, id, t, 1, 2),
                         stats := m.stats.(rectsSent := m.stats.rectsSent + 1),
                         log := m.log + [Sent(FrameBegin(id, t, 2, 1), Delivered, Tag(m)), Sent(FrameRect(r), Delivered, Tag(m))]);
            Plays(Split(m, Outside), TickTimes(5), Split(m', Popped), script)
  {
    hide SendBegin, SendRect, Plays, TickTimes;
    OneSlot(m, script);
    BeginTaken(m, script, Hold(m.queue[0]));
    var m1 := SendBegin(m, script, Hold(m.queue[0])).0;
    RectTaken(m1, script, r);
    assert m1.log + [Sent(FrameRect(r), Delivered, Tag(m))]
           == m.log + [Sent(FrameBegin(id, t, 2, 1), Delivered, Tag(m)), Sent(FrameRect(r), Delivered, Tag(m))];
  }

  /** ... and the decision that an end is owed, sent and taken. */
  lemma EndTaken(m: Sender, script: Script)
    requires script(|m.log|) == Delivered && m.endQueued && !m.building && m.abortPending.None?
    requires m.wire.open && m.wire.rects == 1 && m.wire.bytes == 2
    ensures var m' := m.(endQueued := false, wire := m.wire.(open := false),
                         stats := CountFrame(m.stats, m.wire.id, m.wire.ftype, 1, 2),
                         log := m.log + [Sent(FrameEnd(m.wire.id, 1, 2, false), Delivered, Tag(m))]);
            Plays(Split(m, Popped), TickTimes(2), Split(m', Outside), script)
  {
    hide CountFrame;
    var c := CommitEnd(m.wire.id, m.wire.ftype, 1, 2);
    var m1 := m.(endQueued := false, wire := m.wire.(open := false));
    assert CloseOut(m) == (m1, c);
    var end := Split(SendEnd(m1, script, c, Tag(m)), Outside);
    hide CloseOut;
    TickOn(Split(m1, Ending(c, Tag(m))), end, 0, end, script);
    TickOn(Split(m, Popped), Split(m1, Ending(c, Tag(m))), 1, end, script);
  }

  lemma FlushOne(m: Sender, pc: Pc, hist: seq<Frame>, script: Script)
    requires m.building && m.hist != [] && hist == SetLast(m.hist, Last(m.hist).(flushed := true))
    requires HeadPresent(Split(m, pc)) && !pc.Ending?
    ensures Plays(Split(m, pc), [FlushFrame], Split(m.(endQueued := true, building := false, hist := hist), pc), script)
  {
    PlaysOne(Split(m, pc), FlushFrame, Split(m.(endQueued := true, building := false, hist := hist), pc), script);
  }

  // ---- an end overtakes a rectangle ----

  const FRAME_AB := Frame(1, Full, 2, 1, [A, B], true, false)

  const GROWN := FREED.(queue := [Slot(false, Full, 1, B)], rectCount := 2, byteCount := 4, hist := [FRAME_AB.(flushed := false)])
  const CUT := GROWN.(
    building := false, wire := WireFrame(false, 1, Full, 1, 2), log := [SessionReset, BEGIN_1, RECT_A, END_1],
    stats := CountFrame(GROWN.stats, 1, Full, 1, 2), hist := [FRAME_AB])

  const WRITE_B := Write(1, 0, 1, 1, Some([3, 4]))

  const OPENING_RUN: seq<Action> := [Configure(2, 1, true)] + [Connect] + [WRITE_A] + TickTimes(5)

  /** The UI adds B and flushes while pump is between freeing the slot of A and deciding the end. */
  const CUT_RUN: seq<Action> := OPENING_RUN + [WRITE_B] + [FlushFrame] + TickTimes(2)

  lemma FirstFrame(script: Script)
    requires Delivers(script, 4)
    ensures Plays(START, OPENING_RUN, Split(FREED, Popped), script)
  {
    hide Plays, TickTimes;
    Staging(script);
    Opening(CONNECTED, Outside, A, script);
    assert CONNECTED.hist + [FRAME_A] == [FRAME_A];
    FirstSlot(STAGED, script, 1, Full, A);
    assert STAGED.log + [BEGIN_1, RECT_A] == FREED.log;
    PlaysJoin(START, [Configure(2, 1, true)], Split(CONFIGURED, Outside), [Connect], Split(CONNECTED, Outside), script);
    PlaysJoin(START, [Configure(2, 1, true)] + [Connect], Split(CONNECTED, Outside), [WRITE_A], Split(STAGED, Outside), script);
    PlaysJoin(START, [Configure(2, 1, true)] + [Connect] + [WRITE_A], Split(STAGED, Outside), TickTimes(5), Split(FREED, Popped), script);
  }

  lemma AddB(script: Script)
    ensures Plays(Split(FREED, Popped), [WRITE_B], Split(GROWN, Popped), script)
  {
    EnqueueEffect(FREED, B);
    var px: seq<byte> := [3, 4];
    assert px[..2] == px;
    var m := Enqueue(FREED, B);
    assert [A] + [B] == [A, B] && m.hist == GROWN.hist && m.queue == GROWN.queue;
    PlaysOne(Split(FREED, Popped), WRITE_B, Split(m, Popped), script);
  }

  lemma CutPlays(script: Script)
    requires Delivers(script, 4)
    ensures Plays(START, CUT_RUN, Split(CUT, Outside), script)
  {
    hide Plays, TickTimes, CountFrame;
    FirstFrame(script);
    AddB(script);
    var raced := GROWN.(endQueued := true, building := false, hist := [FRAME_AB]);
    FlushOne(GROWN, Popped, [FRAME_AB], script);
    EndTaken(raced, script);
    assert raced.log + [END_1] == CUT.log;
    var at := Split(FREED, Popped);
    PlaysJoin(START, OPENING_RUN, at, [WRITE_B], Split(GROWN, Popped), script);
    PlaysJoin(START, OPENING_RUN + [WRITE_B], Split(GROWN, Popped), [FlushFrame], Split(raced, Popped), script);
    PlaysJoin(START, OPENING_RUN + [WRITE_B] + [FlushFrame], Split(raced, Popped), TickTimes(2), Split(CUT, Outside), script);
  }

  const COMMIT_1 := Committed(BeginInfo(1, Full, 2, 1), [A])

  lemma HeardCut()
    ensures Heard(CUT.log) == FRESH.(hasBase := true, commits := [COMMIT_1])
  {
    hide Heard, Payload, OnBegin, OnRect, OnEnd;
    var l0, l1, l2 := [SessionReset], [SessionReset, BEGIN_1], [SessionReset, BEGIN_1, RECT_A];
    assert l0 == [] + [SessionReset] && l1 == l0 + [BEGIN_1] && l2 == l1 + [RECT_A] && CUT.log == l2 + [END_1];
    HeardNothing();
    HearOne([], SessionReset);
    HearOne(l0, BEGIN_1);
    DeliverBegin(FRESH, 1, Full, 2, 1);
    HearOne(l1, RECT_A);
    DeliverRect(Heard(l1), A);
    assert [] + [A] == [A] && [] + [COMMIT_1] == [COMMIT_1];
    HearOne(l2, END_1);
    DeliverEnd(Heard(l2), 1, 1, 2, false);
  }

  lemma HeardNothing()
    ensures Heard([]) == FRESH
  {
  }

  /** With every message delivered, the receiver commits the flushed frame of A and B without B. */
  lemma RaceCutsAFrame(script: Script)
    requires Delivers(script, 4)
    ensures Plays(START, CUT_RUN, Split(CUT, Outside), script)
    ensures CUT.hist == [Frame(1, Full, 2, 1, [A, B], true, false)]
    ensures Heard(CUT.log).commits == [Committed(BeginInfo(1, Full, 2, 1), [A])]
  {
    CutPlays(script);
    HeardCut();
  }

  // ---- and then a dropped frame is committed ----

  const FRAME_C := Frame(2, Partial, 2, 1, [C], false, false)
  const FRAME_D := Frame(3, Full, 2, 1, [D], true, false)

  const LOG_STRAY: seq<Entry> := [SessionReset, BEGIN_1, RECT_A, END_1, RECT_B]
  const LOG_LEFTOVER: seq<Entry> := [SessionReset, BEGIN_1, RECT_A, END_1, RECT_B, BEGIN_2, RECT_C]
  const LOG_REFUSED: seq<Entry> := [SessionReset, BEGIN_1, RECT_A, END_1, RECT_B, BEGIN_2, RECT_C, BEGIN_3]
  const LOG_FINAL: seq<Entry> := [SessionReset, BEGIN_1, RECT_A, END_1, RECT_B, BEGIN_2, RECT_C, BEGIN_3, END_2]

  /** B has gone out after the end of its frame, and its slot has just been freed. */
  const STRAY := CUT.(
    queue := [], wire := WireFrame(false, 1, Full, 2, 4), log := LOG_STRAY,
    stats := CUT.stats.(rectsSent := CUT.stats.rectsSent + 1))

  /** The UI has opened frame 2 with C and dropped it; pump has cleared the abort, but C is still queued. */
  const DROPPED := STRAY.(
    queue := [Slot(true, Partial, 2, C)], frameId := 2, frameType := Partial, rectCount := 1, byteCount := 2, needFull := true,
    hist := [FRAME_AB, FRAME_C.(dropped := true)],
    stats := STRAY.stats.(framesDropped := STRAY.stats.framesDropped + 1))

  /** Frame 2 has been begun after all, and no end of it is owed. */
  const LEFTOVER := DROPPED.(
    queue := [], wire := WireFrame(true, 2, Partial, 1, 2), log := LOG_LEFTOVER,
    stats := DROPPED.stats.(rectsSent := DROPPED.stats.rectsSent + 1))

  /** The UI has drawn and flushed frame 3, but its FRAME_BEGIN was refused. */
  const REFUSED := LEFTOVER.(
    frameId := 3, frameType := Full, endQueued := true, log := LOG_REFUSED,
    hist := [FRAME_AB, FRAME_C.(dropped := true), FRAME_D])

  const FINAL := REFUSED.(
    endQueued := false, wire := WireFrame(false, 2, Partial, 1, 2), log := LOG_FINAL,
    stats := CountFrame(REFUSED.stats, 2, Partial, 1, 2))

  const WRITE_C := Write(0, 0, 1, 1, Some([5, 6]))
  const WRITE_D := Write(1, 0, 1, 1, Some([7, 8]))

  const DROP_RUN: seq<Action> := TickTimes(5) + [WRITE_C] + [Drop] + TickTimes(1)
  const FINISH_RUN: seq<Action> := [WRITE_D] + [FlushFrame] + TickTimes(5) + TickTimes(2)

  /** The closing decision with an abort pending for a frame that is not on the wire. */
  lemma Clears(m: Sender, script: Script)
    requires m.abortPending.Some? && !m.wire.open
    ensures Plays(Split(m, Popped), TickTimes(1),
                  Split(m.(abortPending := None, building := false, endQueued := false), Outside), script)
  {
    var end := Split(m.(abortPending := None, building := false, endQueued := false), Outside);
    TickOn(Split(m, Popped), end, 0, end, script);
  }

  /** ... and with nothing to decide. */
  lemma Leaves(m: Sender, script: Script)
    requires m.abortPending.None? && !m.endQueued
    ensures Plays(Split(m, Popped), TickTimes(1), Split(m, Outside), script)
  {
    TickOn(Split(m, Popped), Split(m, Outside), 0, Split(m, Outside), script);
  }

  lemma PeakIsOne()
    ensures STRAY.stats.queuePeak == 1 == LEFTOVER.stats.queuePeak
  {
  }

  lemma DropPlays(script: Script)
    requires Delivers(script, 5)
    ensures Plays(Split(CUT, Outside), DROP_RUN, Split(DROPPED, Outside), script)
  {
    hide Plays, TickTimes, CountFrame, SendRect;
    PeakIsOne();
    OneSlot(CUT, script);
    RectTaken(CUT, script, B);
    assert CUT.log + [RECT_B] == LOG_STRAY;
    Opening(STRAY, Popped, C, script);
    var drawn := STRAY.(
      queue := DROPPED.queue, frameId := 2, frameType := Partial, rectCount := 1, byteCount := 2, building := true,
      hist := [FRAME_AB, FRAME_C]);
    assert STRAY.hist + [FRAME_C] == drawn.hist;
    var aborted := DROPPED.(abortPending := Some(2));
    assert MarkDropped(drawn.hist) == DROPPED.hist;
    PlaysOne(Split(drawn, Popped), Drop, Split(aborted, Popped), script);
    Clears(aborted, script);
    var s, t5 := Split(CUT, Outside), TickTimes(5);
    PlaysJoin(s, t5, Split(STRAY, Popped), [WRITE_C], Split(drawn, Popped), script);
    PlaysJoin(s, t5 + [WRITE_C], Split(drawn, Popped), [Drop], Split(aborted, Popped), script);
    PlaysJoin(s, t5 + [WRITE_C] + [Drop], Split(aborted, Popped), TickTimes(1), Split(DROPPED, Outside), script);
  }

  /** pump begins the dropped frame after all. */
  lemma RevivePlays(script: Script)
    requires Delivers(script, 7)
    ensures Plays(Split(DROPPED, Outside), TickTimes(5) + TickTimes(1), Split(LEFTOVER, Outside), script)
  {
    hide Plays, TickTimes, CountFrame;
    FirstSlot(DROPPED, script, 2, Partial, C);
    assert LOG_STRAY + [BEGIN_2, RECT_C] == LOG_LEFTOVER;
    Leaves(LEFTOVER, script);
    PlaysJoin(Split(DROPPED, Outside), TickTimes(5), Split(LEFTOVER, Popped), TickTimes(1), Split(LEFTOVER, Outside), script);
  }

  /** The next frame's end closes it. */
  lemma FinishPlays(script: Script)
    requires Delivers(script, 7) && script(7) == Refused && script(8) == Delivered
    ensures Plays(Split(LEFTOVER, Outside), FINISH_RUN, Split(FINAL, Outside), script)
  {
    hide Plays, TickTimes, CountFrame, SendBegin;
    PeakIsOne();
    Opening(LEFTOVER, Outside, D, script);
    var drawn := LEFTOVER.(
      queue := [Slot(true, Full, 3, D)], frameId := 3, frameType := Full, building := true, needFull := false,
      hist := LEFTOVER.hist + [FRAME_D.(flushed := false)]);
    assert SetLast(drawn.hist, FRAME_D) == REFUSED.hist;
    FlushOne(drawn, Outside, REFUSED.hist, script);
    var flushed := drawn.(building := false, endQueued := true, hist := REFUSED.hist);
    OneSlot(flushed, script);
    BeginRefused(flushed, script, Hold(flushed.queue[0]));
    assert LOG_LEFTOVER + [BEGIN_3] == LOG_REFUSED;
    EndTaken(REFUSED, script);
    assert LOG_REFUSED + [END_2] == LOG_FINAL;
    var s := Split(LEFTOVER, Outside);
    PlaysJoin(s, [WRITE_D], Split(drawn, Outside), [FlushFrame], Split(flushed, Outside), script);
    PlaysJoin(s, [WRITE_D] + [FlushFrame], Split(flushed, Outside), TickTimes(5), Split(REFUSED, Popped), script);
    PlaysJoin(s, [WRITE_D] + [FlushFrame] + TickTimes(5), Split(REFUSED, Popped), TickTimes(2), Split(FINAL, Outside), script);
  }

  const COMMIT_2 := Committed(BeginInfo(2, Partial, 2, 1), [C])

  lemma HeardFinal()
    ensures Heard(FINAL.log).commits == [COMMIT_1, COMMIT_2]
  {
    hide Heard, Payload, OnBegin, OnRect, OnEnd;
    var l5 := LOG_STRAY + [BEGIN_2];
    assert LOG_STRAY == CUT.log + [RECT_B] && LOG_LEFTOVER == l5 + [RECT_C];
    assert LOG_REFUSED == LOG_LEFTOVER + [BEGIN_3] && LOG_FINAL == LOG_REFUSED + [END_2];
    HeardCut();
    HearOne(CUT.log, RECT_B);
    Races.RectIgnored(Heard(CUT.log), Payload(FrameRect(B)));
    HearOne(LOG_STRAY, BEGIN_2);
    DeliverBegin(Heard(LOG_STRAY), 2, Partial, 2, 1);
    HearOne(l5, RECT_C);
    DeliverRect(Heard(l5), C);
    HearOne(LOG_LEFTOVER, BEGIN_3);
    HearOne(LOG_REFUSED, END_2);
    assert [] + [C] == [C] && [COMMIT_1] + [COMMIT_2] == [COMMIT_1, COMMIT_2];
    DeliverEnd(Heard(LOG_REFUSED), 2, 1, 2, false);
  }

  /** After such a cut, a frame opened and dropped in the next gap of the same kind is begun all the same; when the
      beginning of the frame after it is refused, that frame's end closes the dropped one, and the receiver commits it. */
  lemma DroppedFrameIsCommitted(script: Script)
    requires Delivers(script, 7) && script(7) == Refused && script(8) == Delivered
    ensures Plays(START, CUT_RUN + DROP_RUN + (TickTimes(5) + TickTimes(1)) + FINISH_RUN, Split(FINAL, Outside), script)
    ensures FINAL.hist[1] == Frame(2, Partial, 2, 1, [C], false, true)
    ensures Heard(FINAL.log).commits == [COMMIT_1, Committed(BeginInfo(2, Partial, 2, 1), [C])]
  {
    hide Plays, TickTimes, CountFrame;
    CutPlays(script);
    DropPlays(script);
    RevivePlays(script);
    FinishPlays(script);
    HeardFinal();
    PlaysJoin(START, CUT_RUN, Split(CUT, Outside), DROP_RUN, Split(DROPPED, Outside), script);
    var revive := TickTimes(5) + TickTimes(1);
    PlaysJoin(START, CUT_RUN + DROP_RUN, Split(DROPPED, Outside), revive, Split(LEFTOVER, Outside), script);
    PlaysJoin(START, CUT_RUN + DROP_RUN + revive, Split(LEFTOVER, Outside), FINISH_RUN, Split(FINAL, Outside), script);
  }

  // ---- a PARTIAL frame over a frame that never arrived ----

  const RECT_2 := Sent(FrameRect(B), Delivered, 1)
  const LOST_END := Sent(FrameEnd(2, 1, 2, false), Refused, 1)
  const BEGIN_3P := Sent(FrameBegin(3, Partial, 2, 1), Delivered, 2)
  const RECT_3 := Sent(FrameRect(C), Delivered, 2)
  const END_3 := Sent(FrameEnd(3, 1, 2, false), Delivered, 2)

  const FRAME_2 := Frame(2, Partial, 2, 1, [B], true, false)
  const FRAME_3 := Frame(3, Partial, 2, 1, [C], true, false)

  const LOG_DONE: seq<Entry> := [SessionReset, BEGIN_1, RECT_A, END_1]
  const LOG_SENT: seq<Entry> := [SessionReset, BEGIN_1, RECT_A, END_1, BEGIN_2, RECT_2]
  const LOG_LOST: seq<Entry> := [SessionReset, BEGIN_1, RECT_A, END_1, BEGIN_2, RECT_2, LOST_END]
  const LOG_NEXT: seq<Entry> := [SessionReset, BEGIN_1, RECT_A, END_1, BEGIN_2, RECT_2, LOST_END, BEGIN_3P, RECT_3]
  const LOG_SKIPPED: seq<Entry> :=
    [SessionReset, BEGIN_1, RECT_A, END_1, BEGIN_2, RECT_2, LOST_END, BEGIN_3P, RECT_3, END_3]

  /** Frame 1 has arrived whole. */
  const DONE := FREED.(
    building := false, wire := WireFrame(false, 1, Full, 1, 2), log := LOG_DONE,
    stats := CountFrame(FREED.stats, 1, Full, 1, 2), hist := [FRAME_A.(flushed := true)])

  /** The end of frame 2 has been decided. */
  const DECIDED := DONE.(
    frameId := 2, frameType := Partial, wire := WireFrame(false, 2, Partial, 1, 2), log := LOG_SENT,
    stats := DONE.stats.(rectsSent := DONE.stats.rectsSent + 1), hist := DONE.hist + [FRAME_2])
  const END_2_DUE := CommitEnd(2, Partial, 1, 2)

  /** While it is being sent, in vain, the UI opens frame 3. */
  const LOST := DECIDED.(
    frameId := 3, building := true, needFull := true, queue := [Slot(true, Partial, 3, C)], log := LOG_LOST,
    hist := DONE.hist + [FRAME_2, FRAME_3.(flushed := false)])

  const NEXT := LOST.(
    building := false, endQueued := true, queue := [], wire := WireFrame(true, 3, Partial, 1, 2), log := LOG_NEXT,
    stats := LOST.stats.(rectsSent := LOST.stats.rectsSent + 1), hist := DONE.hist + [FRAME_2, FRAME_3])

  const SKIPPED := NEXT.(
    endQueued := false, wire := WireFrame(false, 3, Partial, 1, 2), log := LOG_SKIPPED,
    stats := CountFrame(NEXT.stats, 3, Partial, 1, 2))

  const FIRST_RUN: seq<Action> := OPENING_RUN + [FlushFrame] + TickTimes(2)
  const SECOND_RUN: seq<Action> := [WRITE_B] + [FlushFrame] + TickTimes(5) + TickTimes(1)
  const THIRD_RUN: seq<Action> := [WRITE_C] + TickTimes(1) + [FlushFrame] + TickTimes(5) + TickTimes(2)

  lemma FirstPlays(script: Script)
    requires Delivers(script, 4)
    ensures Plays(START, FIRST_RUN, Split(DONE, Outside), script)
  {
    hide Plays, TickTimes, CountFrame;
    FirstFrame(script);
    var flushed := FREED.(endQueued := true, building := false, hist := DONE.hist);
    FlushOne(FREED, Popped, DONE.hist, script);
    EndTaken(flushed, script);
    assert FREED.log + [END_1] == LOG_DONE;
    PlaysJoin(START, OPENING_RUN, Split(FREED, Popped), [FlushFrame], Split(flushed, Popped), script);
    PlaysJoin(START, OPENING_RUN + [FlushFrame], Split(flushed, Popped), TickTimes(2), Split(DONE, Outside), script);
  }

  lemma Decides(m: Sender, script: Script)
    requires m.endQueued && !m.building && m.abortPending.None? && m.wire.open
    ensures var c := CommitEnd(m.wire.id, m.wire.ftype, m.wire.rects, m.wire.bytes);
            Plays(Split(m, Popped), TickTimes(1),
                  Split(m.(endQueued := false, wire := m.wire.(open := false)), Ending(c, Tag(m))), script)
  {
    var c := CommitEnd(m.wire.id, m.wire.ftype, m.wire.rects, m.wire.bytes);
    var end := Split(m.(endQueued := false, wire := m.wire.(open := false)), Ending(c, Tag(m)));
    TickOn(Split(m, Popped), end, 0, end, script);
  }

  lemma OnePeak()
    ensures DONE.stats.queuePeak == 1 == DECIDED.stats.queuePeak
  {
  }

  lemma SecondPlays(script: Script)
    requires Delivers(script, 6)
    ensures Plays(Split(DONE, Outside), SECOND_RUN, Split(DECIDED, Ending(END_2_DUE, 1)), script)
  {
    hide Plays, TickTimes, CountFrame;
    OnePeak();
    Opening(DONE, Outside, B, script);
    var drawn := DONE.(
      queue := [Slot(true, Partial, 2, B)], frameId := 2, frameType := Partial, building := true,
      hist := DONE.hist + [FRAME_2.(flushed := false)]);
    assert SetLast(drawn.hist, FRAME_2) == DECIDED.hist;
    FlushOne(drawn, Outside, DECIDED.hist, script);
    var flushed := drawn.(building := false, endQueued := true, hist := DECIDED.hist);
    FirstSlot(flushed, script, 2, Partial, B);
    assert LOG_DONE + [BEGIN_2, RECT_2] == LOG_SENT;
    var sent := DECIDED.(endQueued := true, wire := WireFrame(true, 2, Partial, 1, 2));
    Decides(sent, script);
    var s := Split(DONE, Outside);
    PlaysJoin(s, [WRITE_B], Split(drawn, Outside), [FlushFrame], Split(flushed, Outside), script);
    PlaysJoin(s, [WRITE_B] + [FlushFrame], Split(flushed, Outside), TickTimes(5), Split(sent, Popped), script);
    PlaysJoin(s, [WRITE_B] + [FlushFrame] + TickTimes(5), Split(sent, Popped), TickTimes(1),
              Split(DECIDED, Ending(END_2_DUE, 1)), script);
  }

  lemma EndRefused(m: Sender, script: Script)
    requires script(|m.log|) == Refused
    ensures Plays(Split(m, Ending(END_2_DUE, 1)), TickTimes(1),
                  Split(m.(needFull := true, log := m.log + [LOST_END]), Outside), script)
  {
    hide CountFrame, CloseOut, Pop;
    assert EndMessage(END_2_DUE) == LOST_END.msg;
    assert Fate(LOST_END.msg, Refused) == Refused;
    hide EndMessage, Fate;
    var end := Split(m.(needFull := true, log := m.log + [LOST_END]), Outside);
    TickOn(Split(m, Ending(END_2_DUE, 1)), end, 0, end, script);
  }

  lemma ThirdPlays(script: Script)
    requires script(6) == Refused && script(7) == script(8) == script(9) == Delivered
    ensures Plays(Split(DECIDED, Ending(END_2_DUE, 1)), THIRD_RUN, Split(SKIPPED, Outside), script)
  {
    hide Plays, TickTimes, CountFrame;
    OnePeak();
    var gap := Ending(END_2_DUE, 1);
    Opening(DECIDED, gap, C, script);
    var drawn := LOST.(needFull := false, log := LOG_SENT);
    assert DECIDED.hist + [FRAME_3.(flushed := false)] == LOST.hist;
    EndRefused(drawn, script);
    assert LOG_SENT + [LOST_END] == LOG_LOST;
    assert SetLast(LOST.hist, FRAME_3) == NEXT.hist;
    FlushOne(LOST, Outside, NEXT.hist, script);
    var flushed := LOST.(building := false, endQueued := true, hist := NEXT.hist);
    FirstSlot(flushed, script, 3, Partial, C);
    assert LOG_LOST + [BEGIN_3P, RECT_3] == LOG_NEXT;
    EndTaken(NEXT, script);
    assert LOG_NEXT + [END_3] == LOG_SKIPPED;
    var s := Split(DECIDED, gap);
    PlaysJoin(s, [WRITE_C], Split(drawn, gap), TickTimes(1), Split(LOST, Outside), script);
    PlaysJoin(s, [WRITE_C] + TickTimes(1), Split(LOST, Outside), [FlushFrame], Split(flushed, Outside), script);
    PlaysJoin(s, [WRITE_C] + TickTimes(1) + [FlushFrame], Split(flushed, Outside), TickTimes(5), Split(NEXT, Popped), script);
    PlaysJoin(s, [WRITE_C] + TickTimes(1) + [FlushFrame] + TickTimes(5), Split(NEXT, Popped), TickTimes(2),
              Split(SKIPPED, Outside), script);
  }

  lemma HeardSkipped()
    ensures Heard(LOG_SKIPPED).commits == [COMMIT_1, Committed(BeginInfo(3, Partial, 2, 1), [C])]
  {
    hide Heard, Payload, OnBegin, OnRect, OnEnd;
    var l5, l8 := LOG_DONE + [BEGIN_2], LOG_LOST + [BEGIN_3P];
    assert CUT.log == LOG_DONE && LOG_SENT == l5 + [RECT_2] && LOG_LOST == LOG_SENT + [LOST_END];
    assert LOG_NEXT == l8 + [RECT_3] && LOG_SKIPPED == LOG_NEXT + [END_3];
    HeardCut();
    HearOne(LOG_DONE, BEGIN_2);
    DeliverBegin(Heard(LOG_DONE), 2, Partial, 2, 1);
    HearOne(l5, RECT_2);
    DeliverRect(Heard(l5), B);
    HearOne(LOG_SENT, LOST_END);
    HearOne(LOG_LOST, BEGIN_3P);
    DeliverBegin(Heard(LOG_LOST), 3, Partial, 2, 1);
    HearOne(l8, RECT_3);
    DeliverRect(Heard(l8), C);
    assert [] + [C] == [C];
    HearOne(LOG_NEXT, END_3);
    DeliverEnd(Heard(LOG_NEXT), 3, 1, 2, false);
  }

  /** A frame started while a refused end is being sent is PARTIAL, and the receiver commits it over the frame before
      the one that was lost. Phase 3 is not raced. */
  lemma PartialSkipsAFrame(script: Script)
    requires Delivers(script, 6) && script(6) == Refused && script(7) == script(8) == script(9) == Delivered
    ensures Plays(START, FIRST_RUN + SECOND_RUN + THIRD_RUN, Split(SKIPPED, Outside), script)
    ensures SKIPPED.hist[1] == Frame(2, Partial, 2, 1, [B], true, false)
    ensures Heard(SKIPPED.log).commits == [Committed(BeginInfo(1, Full, 2, 1), [A]), Committed(BeginInfo(3, Partial, 2, 1), [C])]
  {
    hide Plays, TickTimes, CountFrame, Heard;
    FirstPlays(script);
    SecondPlays(script);
    ThirdPlays(script);
    HeardSkipped();
    var gap := Split(DECIDED, Ending(END_2_DUE, 1));
    PlaysJoin(START, FIRST_RUN, Split(DONE, Outside), SECOND_RUN, gap, script);
    PlaysJoin(START, FIRST_RUN + SECOND_RUN, gap, THIRD_RUN, Split(SKIPPED, Outside), script);
  }

  // ---- a frame of the old session in the new one ----

  const LOG_OLD: seq<Entry> := [SessionReset, BEGIN_1, RECT_A, END_1, SessionReset, BEGIN_2, RECT_2]

  const OLD := DONE.(
    frameId := 2, frameType := Partial, building := true, needFull := true, wire := WireFrame(true, 2, Partial, 1, 2),
    log := LOG_OLD, stats := DONE.stats.(rectsSent := DONE.stats.rectsSent + 1),
    hist := DONE.hist + [FRAME_2.(flushed := false)])

  /** onConnected with a PARTIAL frame in flight: that frame is begun in the new session all the same. */
  lemma OldFrameBegins(script: Script)
    requires Delivers(script, 7)
    ensures Plays(START, FIRST_RUN + [WRITE_B] + [Connect] + TickTimes(5), Split(OLD, Popped), script)
    ensures !Bases.BeginsRest(OLD.log, OLD.hist)
  {
    hide Plays, TickTimes, CountFrame;
    OnePeak();
    FirstPlays(script);
    Opening(DONE, Outside, B, script);
    var drawn := OLD.(queue := [Slot(true, Partial, 2, B)], needFull := false, wire := DONE.wire, log := LOG_DONE, stats := DONE.stats);
    var again := drawn.(needFull := true, log := LOG_DONE + [SessionReset]);
    PlaysOne(Split(drawn, Outside), Connect, Split(again, Outside), script);
    FirstSlot(again, script, 2, Partial, B);
    assert LOG_DONE + [SessionReset] + [BEGIN_2, RECT_2] == LOG_OLD;
    PlaysJoin(START, FIRST_RUN, Split(DONE, Outside), [WRITE_B], Split(drawn, Outside), script);
    PlaysJoin(START, FIRST_RUN + [WRITE_B], Split(drawn, Outside), [Connect], Split(again, Outside), script);
    PlaysJoin(START, FIRST_RUN + [WRITE_B] + [Connect], Split(again, Outside), TickTimes(5), Split(OLD, Popped), script);
    NothingClosed();
    assert !Bases.BeginRests(LOG_OLD, 5, OLD.hist);
  }

  lemma NothingClosed()
    ensures Bases.Closed(LOG_OLD[..5]) == None
  {
    assert LOG_OLD[..5] == LOG_DONE + [SessionReset];
    Bases.ClosedOne(LOG_DONE, SessionReset);
  }
}
