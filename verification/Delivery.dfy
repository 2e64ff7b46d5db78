/** From flush to commit. A frame whose messages all arrive is committed, whatever its size and wherever pump stands in
    it when the UI flushes; and pump gives a frame up only if one of its rectangles could not be sent. */
module Delivery {
  import opened Wire
  import opened SenderState
  import opened SplitPump
  import opened FrameAssembly
  import opened Fidelity
  import opened Continuity
  import opened Runs
  import Progress

  /** The last FRAME_BEGIN of the log and everything behind it arrived, in one session. */
  predicate Unharmed(log: seq<Entry>) {
    log != [] &&
    match log[|log| - 1]
    case SessionReset => false
    case Sent(msg, o, _) => o == Delivered && (msg.FrameBegin? || Unharmed(log[..|log| - 1]))
  }

  lemma UnharmedOne(log: seq<Entry>, e: Entry)
    ensures Unharmed(log + [e]) <==> e.Sent? && e.outcome == Delivered && (e.msg.FrameBegin? || Unharmed(log))
  {
    assert (log + [e])[..|log|] == log;
  }

  predicate IsFailedRect(e: Entry, k: nat) { e.Sent? && e.msg.FrameRect? && !e.outcome.Ok() && e.frame == k }

  /** The sink refused or broke off a rectangle of frame k. */
  predicate RectFailed(log: seq<Entry>, k: nat) { exists i | 0 <= i < |log| :: IsFailedRect(log[i], k) }

  lemma FailureStays(log: seq<Entry>, e: Entry, k: nat)
    ensures RectFailed(log + [e], k) <==> RectFailed(log, k) || IsFailedRect(e, k)
  {
    if RectFailed(log, k) {
      var i :| 0 <= i < |log| && IsFailedRect(log[i], k);
      assert IsFailedRect((log + [e])[i], k);
    }
    if IsFailedRect(e, k) {
      assert IsFailedRect((log + [e])[|log|], k);
    }
  }

  /** The receiver has collected the first n rectangles of f, and nothing else. */
  ghost predicate Collected(a: Assembler, f: Frame, n: int)
    requires 0 <= n <= |f.rects|
  {
    && a.state == InFrame && a.begin == BeginOf(f)
    && a.rects == f.rects[..n] && a.rectCount == n && a.byteCount == Bytes(f.rects[..n])
  }

  ghost predicate Abandoned(m: Sender) {
    m.hist != [] && (Last(m.hist).dropped || RectFailed(m.log, |m.hist| - 1))
  }

  /** What the receiver has of the frame on the wire, if nothing of it was lost; and where aborts come from. */
  ghost predicate Carried(s: Split) {
    var m := s.m;
    && Inv(s) && Geometry(m) && OnScreen(m.hist)
    && (m.abortPending.Some? ==> m.needFull && Abandoned(m))
    && (m.wire.open && m.abortPending.None? && Unharmed(m.log) && Representable(Last(m.hist)) ==>
          Collected(Heard(m.log), Last(m.hist), SentCount(s)))
  }

  lemma BlankCarried(queueSlots: nat, slotBytes: nat)
    ensures Carried(Split(Blank(queueSlots, slotBytes), Outside))
  {
    BlankInv(queueSlots, slotBytes);
  }

  // ---- UI calls: the log does not move ----

  lemma RepresentableStart(f: Frame, f': Frame)
    requires f.rects <= f'.rects && Representable(f')
    ensures Representable(f)
  {
    BytesPrefix(f'.rects, |f.rects|);
    assert f'.rects[..|f.rects|] == f.rects;
  }

  lemma UiCarried(s: Split, m': Sender)
    requires Carried(s) && Inv(Split(m', s.pc)) && m'.log == s.m.log && Geometry(m') && OnScreen(m'.hist)
    requires m'.abortPending.Some? ==>
               && m'.needFull && m'.hist != []
               && (Last(m'.hist).dropped
                   || (s.m.abortPending.Some? && |m'.hist| == |s.m.hist| && !Last(s.m.hist).dropped))
    requires m'.wire.open && m'.abortPending.None? ==>
               && s.m.wire.open && s.m.abortPending.None? && |m'.hist| == |s.m.hist| > 0
               && BeginOf(Last(m'.hist)) == BeginOf(Last(s.m.hist)) && Last(s.m.hist).rects <= Last(m'.hist).rects
               && SentCount(Split(m', s.pc)) == SentCount(s)
    ensures Carried(Split(m', s.pc))
  {
    var m := s.m;
    hide Heard, Bytes, Geometry, OnScreen, QueueIsTail, BeginOf;
    if m'.wire.open && m'.abortPending.None? && Representable(Last(m'.hist)) {
      RepresentableStart(Last(m.hist), Last(m'.hist));
      assert Last(m'.hist).rects[..SentCount(s)] == Last(m.hist).rects[..SentCount(s)];
    }
  }

  lemma EnqueueOnScreen(m: Sender, r: Rect)
    requires Current(m) && Geometry(m) && OnScreen(m.hist) && m.building && Fits(r, m.width, m.height)
    ensures var m' := Enqueue(m, r); Geometry(m') && OnScreen(m'.hist)
  {
    hide Enqueue, Bytes, HistIds, Fits;
    EnqueueEffect(m, r);
    assert FrameOnScreen(Last(m.hist));
    assert FrameOnScreen(Last(Enqueue(m, r).hist));
    assert forall k | 0 <= k < |m.hist| - 1 :: FrameOnScreen(m.hist[k]);
  }

  lemma StartOnScreen(m: Sender, r: Rect)
    requires Geometry(m) && OnScreen(m.hist) && m.queue == [] && Fits(r, m.width, m.height)
    requires 1 <= m.width <= MAX_SIDE && 1 <= m.height <= MAX_SIDE
    ensures var m' := Enqueue(StartFrame(m), r); Geometry(m') && OnScreen(m'.hist)
  {
    hide Enqueue, StartFrame, Fits;
    StartEffect(m, r);
  }

  lemma WriteOnScreen(m: Sender, x: int, y: int, w: int, h: int, px: Option<seq<byte>>)
    requires Config(m) && Current(m) && Geometry(m) && OnScreen(m.hist) && Readable(w, h, px)
    ensures var m' := WriteRect(m, x, y, w, h, px).1; Geometry(m') && OnScreen(m'.hist)
  {
    hide Enqueue, StartFrame, WriteRect, OnScreen, Bytes, HistIds;
    WriteCases(m, x, y, w, h, px);
    if WriteRect(m, x, y, w, h, px).0 == Ok {
      AcceptedRect(m, x, y, w, h, px);
      if m.building {
        EnqueueOnScreen(m, RectOf(x, y, w, h, px));
      } else {
        StartOnScreen(m, RectOf(x, y, w, h, px));
      }
    }
  }

  lemma WriteCarried(s: Split, x: int, y: int, w: int, h: int, px: Option<seq<byte>>)
    requires Carried(s) && Readable(w, h, px)
    ensures Carried(Split(WriteRect(s.m, x, y, w, h, px).1, s.pc))
  {
    var m, m' := s.m, WriteRect(s.m, x, y, w, h, px).1;
    WriteKeeps(m, x, y, w, h, px, s.pc);
    WriteOnScreen(m, x, y, w, h, px);
    WriteCases(m, x, y, w, h, px);
    hide WriteRect, OnScreen, Geometry, Bytes, HistIds, Enqueue, StartFrame, Heard;
    if w > 0 && h > 0 && px.Some? {
      var r := RectOf(x, y, w, h, px);
      if m.building {
        EnqueueEffect(m, r);
      } else if m.queue == [] {
        StartEffect(m, r);
      }
    }
    UiCarried(s, m');
  }

  lemma FlagsOnScreen(hist: seq<Frame>, hist': seq<Frame>)
    requires OnScreen(hist) && SameButFlags(hist, hist')
    ensures OnScreen(hist')
  {
    FlagsFrames(hist, hist');
  }

  lemma FlushCarried(s: Split)
    requires Carried(s)
    ensures Carried(Split(Flush(s.m), s.pc))
  {
    FlushKeeps(s.m, s.pc);
    FlagsOnScreen(s.m.hist, Flush(s.m).hist);
    hide OnScreen, Bytes, HistIds, Heard, SlotOf;
    UiCarried(s, Flush(s.m));
  }

  lemma DropCarried(s: Split)
    requires Carried(s)
    ensures Carried(Split(DropPendingFrame(s.m), s.pc))
  {
    DropKeeps(s.m, s.pc);
    FlagsOnScreen(s.m.hist, DropPendingFrame(s.m).hist);
    hide OnScreen, Bytes, HistIds, Heard, SlotOf;
    UiCarried(s, DropPendingFrame(s.m));
  }

  // ---- session calls ----

  lemma ClearCarried(m: Sender)
    requires Carried(Split(m, Outside))
    ensures Carried(Split(ClearFrame(m), Outside))
  {
    ClearKeeps(m);
    FlagsOnScreen(m.hist, ClearFrame(m).hist);
    hide OnScreen, Bytes, HistIds, Heard, SlotOf;
    UiCarried(Split(m, Outside), ClearFrame(m));
  }

  lemma QuietCarried(m: Sender, m': Sender)
    requires Carried(Split(m, Outside))
    requires m' == m.(width := m'.width, height := m'.height, enabled := m'.enabled, connected := m'.connected,
                      needFull := m'.needFull, stats := m'.stats, log := m'.log)
    requires (m'.log == m.log || m'.log == m.log + [SessionReset]) && (m.needFull ==> m'.needFull)
    requires (m'.width == m.width && m'.height == m.height)
             || (!InFlight(m) && m.queue == [] && 1 <= m'.width <= MAX_SIDE && 1 <= m'.height <= MAX_SIDE)
    ensures Carried(Split(m', Outside))
  {
    SameQueue(m, m');
    UnharmedOne(m.log, SessionReset);
    if m.hist != [] {
      FailureStays(m.log, SessionReset, |m.hist| - 1);
    }
    hide OnScreen, Bytes, HistIds, Heard, SlotOf, RectFailed, Unharmed;
  }

  lemma SessionCarried(m: Sender, a: Action, script: Script)
    requires Carried(Split(m, Outside)) && Session(a)
    ensures Carried(Act(Split(m, Outside), a, script))
  {
    hide Carried, ClearFrame;
    ClearEffect(m);
    ClearCarried(m);
    match a
    case Connect => QuietCarried(m, OnConnected(m));
    case Enable(on) => QuietCarried(if on then m else ClearFrame(m), SetEnabled(m, on));
    case Disconnect =>
      if m.connected {
        QuietCarried(ClearFrame(m), OnDisconnected(m));
      }
    case Configure(w, h, rgb) =>
      if Init(m, w, h, rgb).0 == Ok {
        QuietCarried(ClearFrame(m), Init(m, w, h, rgb).1);
      }
  }

  // ---- pump steps ----

  lemma BeginSent(m: Sender, script: Script, held: Held)
    ensures var msg := FrameBegin(held.id, held.ftype, m.width % 0x1_0000, m.height % 0x1_0000);
            var e := Sent(msg, script(|m.log|), Tag(m));
            SendBegin(m, script, held) ==
            if e.outcome.Ok() then (m.(log := m.log + [e], wire := WireFrame(true, held.id, held.ftype, 0, 0)), true)
            else (m.(log := m.log + [e], needFull := true), false)
  {
  }

  lemma BeginCarried(s: Split, script: Script)
    requires Carried(s) && s.pc.Taken?
    ensures Carried(Step(s, script))
  {
    var m, held, s' := s.m, s.pc.held, Step(s, script);
    BeginKeeps(s, script);
    if held.isFirst {
      HeldIsNext(s);
      BeginSent(m, script, held);
      BegunCarried(s, script, s'.m, s'.pc);
    }
  }

  lemma BegunCarried(s: Split, script: Script, m': Sender, pc: Pc)
    requires Carried(s) && s.pc.Taken? && Inv(Split(m', pc)) && pc.Begun? && s.m.hist != [] && Left(s.m) == 0
    requires var f := Last(s.m.hist);
             var msg := FrameBegin(f.id, f.ftype, s.m.width % 0x1_0000, s.m.height % 0x1_0000);
             var e := Sent(msg, script(|s.m.log|), |s.m.hist| - 1);
             m' == s.m.(log := s.m.log + [e], wire := m'.wire, needFull := m'.needFull) && (s.m.needFull ==> m'.needFull)
    ensures Carried(Split(m', pc))
  {
    hide Heard, Bytes, OnScreen, HistIds, SlotOf, Unharmed, RectFailed, OnBegin, Payload, SendBegin;
    var m, f := s.m, Last(s.m.hist);
    assert Geometry(m) && m.queue != [];
    var e := Sent(FrameBegin(f.id, f.ftype, f.width, f.height), script(|m.log|), |m.hist| - 1);
    assert m'.log == m.log + [e];
    UnharmedOne(m.log, e);
    FailureStays(m.log, e, |m.hist| - 1);
    HearOne(m.log, e);
    DeliverBegin(Heard(m.log), f.id, f.ftype, f.width, f.height);
    assert f.rects[..0] == [];
    NoBytes();
  }

  lemma NoBytes()
    ensures Bytes([]) == 0
  {
  }

  /** The frame is on the receiver's side up to the held rectangle, so the receiver takes that one too. */
  lemma CollectsNext(a: Assembler, f: Frame, n: nat)
    requires n < |f.rects| && Collected(a, f, n) && Representable(f) && FrameOnScreen(f)
    requires f.width <= MAX_SIDE && f.height <= MAX_SIDE
    requires 8 + |f.rects[n].pixels| <= MAX_MESSAGE_PAYLOAD
    ensures Collected(OnMessage(a, TYPE_FRAME_RECT, Payload(FrameRect(f.rects[n]))), f, n + 1)
    ensures var a' := OnMessage(a, TYPE_FRAME_RECT, Payload(FrameRect(f.rects[n])));
            a'.hasBase == a.hasBase && a'.commits == a.commits
  {
    hide OnRect, Payload, Bytes;
    BytesStep(f.rects, n);
    BytesPrefix(f.rects, n + 1);
    DeliverRect(a, f.rects[n]);
    assert f.rects[..n + 1] == f.rects[..n] + [f.rects[n]];
  }

  /** What a step with the rectangle r does: it goes out, or the open frame is given up. */
  lemma RectSent(m: Sender, script: Script, held: Held, r: Rect)
    requires m.queue != [] && r == Rect(held.x, held.y, held.w, held.h, m.queue[0].rect.pixels)
    requires held.bytes == |r.pixels|
    ensures var e := Sent(FrameRect(r), Fate(FrameRect(r), script(|m.log|)), Tag(m));
            var m1 := m.(log := m.log + [e]);
            SendRect(m, script, held) ==
            if e.outcome.Ok() then
              m1.(stats := m.stats.(rectsSent := m.stats.rectsSent + 1),
                  wire := m.wire.(rects := m.wire.rects + 1, bytes := m.wire.bytes + |r.pixels|))
            else if m.wire.open then
              m1.(abortPending := Some(m.wire.id), needFull := true,
                  stats := m.stats.(framesDropped := m.stats.framesDropped + 1))
            else m1.(needFull := true)
  {
  }

  lemma RectCarried(s: Split, script: Script)
    requires Carried(s) && s.pc.Begun?
    ensures Carried(Step(s, script))
  {
    hide SendRect, Heard, OnScreen, Bytes, HistIds, RectFailed, Unharmed, SlotOf;
    RectKeeps(s, script);
    HeldIsNext(s);
    var m := s.m;
    if s.pc.active {
      var r := Last(m.hist).rects[Left(m)];
      RectSent(m, script, s.pc.held, r);
      StreamedCarried(s, script, r, SendRect(m, script, s.pc.held));
    } else {
      assert !m.wire.open;
    }
  }

  lemma StreamedCarried(s: Split, script: Script, r: Rect, m': Sender)
    requires Carried(s) && s.pc.Begun? && Inv(Split(m', Streamed)) && s.m.hist != []
    requires 0 <= Left(s.m) < |Last(s.m.hist).rects| && r == Last(s.m.hist).rects[Left(s.m)]
    requires var e := Sent(FrameRect(r), Fate(FrameRect(r), script(|s.m.log|)), |s.m.hist| - 1);
             && m' == s.m.(log := s.m.log + [e], stats := m'.stats, needFull := m'.needFull, wire := m'.wire,
                           abortPending := m'.abortPending)
             && m'.wire.open == s.m.wire.open && (s.m.needFull ==> m'.needFull)
             && (m'.abortPending == s.m.abortPending || (!e.outcome.Ok() && m'.needFull))
    ensures Carried(Split(m', Streamed))
  {
    hide Heard, Bytes, HistIds, SlotOf, Unharmed, RectFailed, OnRect, Payload, SendRect, Collected, PcOk;
    hide FrameOnScreen, Representable, WireIsCurrent, Config;
    var m, f := s.m, Last(s.m.hist);
    var e := Sent(FrameRect(r), Fate(FrameRect(r), script(|m.log|)), |m.hist| - 1);
    UnharmedOne(m.log, e);
    FailureStays(m.log, e, |m.hist| - 1);
    HearOne(m.log, e);
    assert Geometry(m') && FrameOnScreen(f) && Left(m') == Left(m);
    hide Geometry, OnScreen;
    if m'.wire.open && m'.abortPending.None? && Unharmed(m'.log) && Representable(f) {
      assert Collected(Heard(m.log), f, Left(m));
      CollectsNext(Heard(m.log), f, Left(m));
    }
  }

  lemma EndCarried(s: Split, script: Script)
    requires Carried(s) && s.pc.Ending?
    ensures Carried(Step(s, script))
  {
    EndKeeps(s, script);
    var m, c, s' := s.m, s.pc.closing, Step(s, script);
    var e := Sent(EndMessage(c), Fate(EndMessage(c), script(|m.log|)), s.pc.frame);
    EndEffect(m, script, c, s.pc.frame);
    assert s'.m.log == m.log + [e];
    if m.hist != [] {
      FailureStays(m.log, e, |m.hist| - 1);
    }
    hide Heard, Bytes, OnScreen, HistIds, SlotOf, Unharmed, RectFailed, SendEnd, Fate;
  }

  lemma OtherCarried(s: Split, script: Script)
    requires Carried(s) && Tame(s, Tick) && (s.pc.Streamed? || s.pc.Looked? || s.pc.Outside? || s.pc.Popped?)
    ensures Carried(Step(s, script))
  {
    StepKeeps(s, script);
    var m, m' := s.m, Step(s, script).m;
    assert m'.log == m.log && m'.hist == m.hist;
    assert SentCount(Step(s, script)) == SentCount(s) || !m.wire.open || m.abortPending.Some?;
    assert m'.wire.open ==> m.wire.open && (m'.abortPending.None? ==> m.abortPending.None?);
    hide Heard, Bytes, OnScreen, HistIds, SlotOf, Unharmed, RectFailed;
  }

  lemma StepCarried(s: Split, script: Script)
    requires Carried(s) && Tame(s, Tick)
    ensures Carried(Step(s, script))
  {
    match s.pc
    case Taken(_) => BeginCarried(s, script);
    case Begun(_, _) => RectCarried(s, script);
    case Ending(_, _) => EndCarried(s, script);
    case _ => OtherCarried(s, script);
  }

  lemma ActCarried(s: Split, a: Action, script: Script)
    requires Carried(s) && Legal(s, a) && Tame(s, a)
    ensures Carried(Act(s, a, script))
  {
    match a
    case Tick => StepCarried(s, script);
    case Write(x, y, w, h, px) => WriteCarried(s, x, y, w, h, px);
    case FlushFrame => FlushCarried(s);
    case Drop => DropCarried(s);
    case _ => SessionCarried(s.m, a, script);
  }

  /** Which step of pump gives a frame up, and which asks for a FULL one, from any state whatever: exactly one in which
      a rectangle of the open frame, or any message, does not go out. */
  lemma GivesUpIff(s: Split, script: Script)
    requires Plain(s)
    ensures var m, m' := s.m, Step(s, script).m;
            var sent := |m'.log| > |m.log|;
            var failed := sent && m.wire.open && IsFailedRect(m'.log[|m.log|], Tag(m));
            && m'.stats.framesDropped == m.stats.framesDropped + (if failed then 1 else 0)
            && (failed ==> m'.abortPending == Some(m.wire.id))
            && (!failed ==> m'.abortPending == m.abortPending || (m'.abortPending.None? && Deciding(s)))
            && (m'.needFull <==> m.needFull || (sent && m'.log[|m.log|].Sent? && !m'.log[|m.log|].outcome.Ok()))
  {
    hide SendBegin, SendRect, SendEnd;
    match s.pc
    case Taken(held) => BeginSent(s.m, script, held);
    case Begun(held, active) => RectGivesUp(s.m, script, held);
    case Ending(c, k) => EndSent(s.m, script, c, k);
    case _ =>
  }

  lemma RectGivesUp(m: Sender, script: Script, held: Held)
    requires m.queue != []
    ensures var r := Rect(held.x, held.y, held.w, held.h, m.queue[0].rect.pixels);
            var e := Sent(FrameRect(r), Fate(FrameRect(r), script(|m.log|)), Tag(m));
            var m' := SendRect(m, script, held);
            && m'.log == m.log + [e]
            && m'.stats.framesDropped == m.stats.framesDropped + (if m.wire.open && !e.outcome.Ok() then 1 else 0)
            && m'.abortPending == (if m.wire.open && !e.outcome.Ok() then Some(m.wire.id) else m.abortPending)
            && (m'.needFull <==> m.needFull || !e.outcome.Ok())
  {
  }

  lemma EndSent(m: Sender, script: Script, c: Closing, k: nat)
    requires c.Sends()
    ensures var e := Sent(EndMessage(c), script(|m.log|), k);
            var m' := SendEnd(m, script, c, k);
            && m'.log == m.log + [e] && (c.AbortEnd? ==> m'.stats == m.stats)
            && m'.stats.framesDropped == m.stats.framesDropped
            && m'.abortPending == m.abortPending && (m'.needFull <==> m.needFull || !e.outcome.Ok())
  {
    assert PayloadSize(EndMessage(c)) == 9;
    hide EndMessage;
  }

  // ---- one slot, both its messages arriving ----

  /** The FRAME_BEGIN due before the slot at the head of the queue, if any. */
  function WithBegin(m: Sender): Sender
    requires m.queue != []
  {
    var q := m.queue[0];
    if q.isFirst then
      var begin := FrameBegin(q.id, q.ftype, m.width % 0x1_0000, m.height % 0x1_0000);
      m.(log := m.log + [Sent(begin, Delivered, Tag(m))], wire := WireFrame(true, q.id, q.ftype, 0, 0))
    else m
  }

  function Served(m: Sender): Sender
    requires m.queue != []
  {
    var m1, r := WithBegin(m), m.queue[0].rect;
    m1.(queue := m.queue[1..], log := m1.log + [Sent(FrameRect(r), Delivered, Tag(m))],
        stats := m.stats.(rectsSent := m.stats.rectsSent + 1),
        wire := m1.wire.(rects := m1.wire.rects + 1, bytes := m1.wire.bytes + |r.pixels|))
  }

  ghost predicate Arriving(script: Script, from: nat, n: nat) { forall k | from <= k < from + n :: script(k) == Delivered }

  predicate HeadFits(m: Sender) {
    m.queue != [] && m.abortPending.None? && 8 + |m.queue[0].rect.pixels| <= MAX_MESSAGE_PAYLOAD
  }

  /** The state before the slot is freed. */
  lemma SlotSent(m: Sender, script: Script)
    requires HeadFits(m) && Arriving(script, |m.log|, 2)
    ensures var held := Hold(m.queue[0]);
            var (m1, active) := if held.isFirst then SendBegin(m, script, held) else (m, true);
            active && m1.queue == m.queue && Pop(SendRect(m1, script, held)) == Served(m)
  {
    hide SendBegin, SendRect, Fate;
    var held, r := Hold(m.queue[0]), m.queue[0].rect;
    assert Fate(FrameRect(r), Delivered) == Delivered by { FitsWhole(r); }
    BeginSent(m, script, held);
    assert (if held.isFirst then SendBegin(m, script, held) else (m, true)) == (WithBegin(m), true);
    RectSent(WithBegin(m), script, held, r);
  }

  lemma FitsWhole(r: Rect)
    requires 8 + |r.pixels| <= MAX_MESSAGE_PAYLOAD
    ensures Fate(FrameRect(r), Delivered) == Delivered
  {
  }

  lemma PumpServes(m: Sender, script: Script)
    requires HeadFits(m) && Arriving(script, |m.log|, 2)
    ensures Pump(m, script).0 == if |m.queue| > 1 then Served(m) else Progress.Closed(Served(m), script, Tag(m))
  {
    hide SendBegin, SendRect, SendEnd, CloseOut, Served;
    SlotSent(m, script);
    ServedFields(m);
  }

  lemma ServedCarried(m: Sender, script: Script)
    requires Carried(Split(m, Outside)) && HeadFits(m) && Arriving(script, |m.log|, 2)
    ensures Carried(Split(Served(m), if |m.queue| == 1 then Popped else Outside))
  {
    hide SendBegin, SendRect, Carried, Served;
    SlotSent(m, script);
    ServedFields(m);
    var held := Hold(m.queue[0]);
    var (m1, active) := if held.isFirst then SendBegin(m, script, held) else (m, true);
    StepCarried(Split(m, Outside), script);
    StepCarried(Split(m, Looked), script);
    StepCarried(Split(m, Taken(held)), script);
    StepCarried(Split(m1, Begun(held, true)), script);
    StepCarried(Split(SendRect(m1, script, held), Streamed), script);
  }

  lemma KeepsCommits(a: Assembler, msg: Message)
    requires !msg.FrameEnd?
    ensures var a' := OnMessage(a, TypeOf(msg), Payload(msg)); a'.hasBase == a.hasBase && a'.commits == a.commits
  {
    hide ParseBegin, ParseRect, Payload;
  }

  /** The slot's messages commit nothing and leave the receiver as unharmed as it was, or make it so. */
  lemma ServedHeard(m: Sender)
    requires m.queue != [] && (m.queue[0].isFirst || Unharmed(m.log))
    ensures Unharmed(Served(m).log)
    ensures var a, a' := Heard(m.log), Heard(Served(m).log); a'.hasBase == a.hasBase && a'.commits == a.commits
  {
    hide OnMessage, Heard, Unharmed, Payload;
    var m1, r := WithBegin(m), m.queue[0].rect;
    if m.queue[0].isFirst {
      var begin := m1.log[|m.log|];
      UnharmedOne(m.log, begin);
      HearOne(m.log, begin);
      KeepsCommits(Heard(m.log), begin.msg);
    }
    UnharmedOne(m1.log, Sent(FrameRect(r), Delivered, Tag(m)));
    HearOne(m1.log, Sent(FrameRect(r), Delivered, Tag(m)));
    KeepsCommits(Heard(m1.log), FrameRect(r));
  }

  // ---- a flushed frame ----

  /** Nothing of the frame in flight has been lost so far, and nothing of it will be. */
  ghost predicate Safe(m: Sender, script: Script)
    requires m.hist != []
  {
    var f := Last(m.hist);
    && m.abortPending.None? && (Left(m) == 0 || (m.wire.open && Unharmed(m.log)))
    && Arriving(script, |m.log|, |m.queue| + if Left(m) == 0 then 2 else 1)
    && Representable(f) && (forall i | 0 <= i < |f.rects| :: 8 + |f.rects[i].pixels| <= MAX_MESSAGE_PAYLOAD)
    && (f.ftype == Partial ==> Heard(m.log).hasBase)
  }

  /** The statistics count f as sent, n rectangles of it since. */
  ghost predicate Counted(t: Stats, t': Stats, f: Frame, n: nat) {
    && t'.rectsSent == t.rectsSent + n
    && t'.framesFull == t.framesFull + (if f.ftype == Full then 1 else 0)
    && t'.framesPartial == t.framesPartial + (if f.ftype == Partial then 1 else 0)
    && t'.fullPixelBytes == t.fullPixelBytes + (if f.ftype == Full then Bytes(f.rects) else 0)
    && t'.partialPixelBytes == t.partialPixelBytes + (if f.ftype == Partial then Bytes(f.rects) else 0)
    && t'.lastFrameId == f.id && t'.lastFrameType == f.ftype
    && t'.lastRectCount == |f.rects| && t'.lastFrameBytes == Bytes(f.rects)
    && t'.framesDropped == t.framesDropped && t'.rectsDropped == t.rectsDropped
    && t'.queueFullEvents == t.queueFullEvents && t'.queuePeak == t.queuePeak
  }

  /** f has been committed, and the sender is as before it, ready for the next frame. */
  ghost predicate Arrived(m: Sender, m': Sender, f: Frame, messages: nat) {
    && Heard(m'.log).commits == Heard(m.log).commits + [Committed(BeginOf(f), f.rects)]
    && Heard(m'.log).hasBase && |m'.log| == |m.log| + messages
    && !Busy(m') && m'.needFull == m.needFull && m'.hist == m.hist && Counted(m.stats, m'.stats, f, |m.queue|)
  }

  lemma ClosesWhole(s: Split, script: Script)
    requires Carried(s) && Deciding(s) && s.m.queue == [] && s.m.endQueued && s.m.hist != [] && Safe(s.m, script)
    ensures Arrived(s.m, Progress.Closed(s.m, script, Tag(s.m)), Last(s.m.hist), 1)
    ensures Progress.AtRest(Progress.Closed(s.m, script, Tag(s.m)))
  {
    hide Heard, OnScreen, Bytes, OnEnd, Payload;
    var m, f, a := s.m, Last(s.m.hist), Heard(s.m.log);
    assert f.rects[..Left(m)] == f.rects && m.wire.open && Left(m) == |f.rects|;
    assert Collected(a, f, Left(m));
    assert f.id == m.frameId && m.wire.id == f.id && m.wire.ftype == f.ftype;
    var e := Sent(FrameEnd(f.id, |f.rects|, Bytes(f.rects), false), Delivered, |m.hist| - 1);
    assert Progress.Closed(m, script, Tag(m)).log == m.log + [e];
    HearOne(m.log, e);
    DeliverEnd(a, f.id, |f.rects|, Bytes(f.rects), false);
  }

  lemma OneServed(m: Sender, script: Script)
    requires Carried(Split(m, Outside)) && m.queue != [] && m.endQueued && m.hist != [] && Safe(m, script)
    ensures HeadFits(m) && m.queue[0].isFirst == (Left(m) == 0)
    ensures Left(m) >= 0 && Safe(Served(m), script) && |Served(m).log| == |m.log| + (if Left(m) == 0 then 2 else 1)
    ensures var a, a' := Heard(m.log), Heard(Served(m).log); a'.hasBase == a.hasBase && a'.commits == a.commits
  {
    hide Heard, OnScreen, Bytes, Unharmed;
    assert SlotOf(m, 0);
    ServedHeard(m);
    assert m.wire.open ==> Left(m) >= 1;
  }

  /** Left to pump, every slot goes out, then the end, and the frame is committed. */
  lemma {:induction false} Drains(m: Sender, script: Script)
    requires Carried(Split(m, Outside)) && m.endQueued && m.hist != [] && Safe(m, script)
    ensures Arrived(m, Progress.Pumps(m, |m.queue| + 1, script), Last(m.hist), |m.queue| + if Left(m) == 0 then 2 else 1)
    decreases |m.queue|
  {
    hide Carried, Safe, Heard, Pump, Served, Counted;
    if m.queue == [] {
      NothingQueued(m, script);
    } else {
      OneServed(m, script);
      assert Arriving(script, |m.log|, 2) by { SafeArrives(m, script); }
      PumpServes(m, script);
      ServedCarried(m, script);
      var m1 := Served(m);
      ServedFields(m);
      var m2 := Pump(m, script).0;
      assert Progress.Pumps(m, |m.queue| + 1, script) == Progress.Pumps(m2, |m.queue|, script);
      if |m.queue| == 1 {
        ClosesWhole(Split(m1, Popped), script);
        Progress.RestStays(m2, 1, script);
        ArrivedBehind(m, m1, m2, Last(m.hist), 1);
      } else {
        Drains(m1, script);
        ArrivedBehind(m, m1, Progress.Pumps(m1, |m1.queue| + 1, script), Last(m.hist), |m1.queue| + 1);
      }
    }
  }

  lemma SafeArrives(m: Sender, script: Script)
    requires m.hist != [] && Safe(m, script) && m.queue != []
    ensures Arriving(script, |m.log|, 2)
  {
    hide Heard, Representable;
  }

  lemma NothingQueued(m: Sender, script: Script)
    requires Carried(Split(m, Outside)) && m.queue == [] && m.endQueued && m.hist != [] && Safe(m, script)
    ensures Arrived(m, Progress.Pumps(m, 1, script), Last(m.hist), 1) && Left(m) > 0
  {
    hide Heard, SendEnd, CloseOut, Safe, Pump;
    ClosesWhole(Split(m, Outside), script);
    Progress.PumpOfNothing(m, script);
    assert Progress.Pumps(m, 1, script) == Progress.Pumps(Pump(m, script).0, 0, script);
  }

  lemma ServedFields(m: Sender)
    requires m.queue != []
    ensures var m1 := Served(m);
            && m1.hist == m.hist && m1.endQueued == m.endQueued && m1.needFull == m.needFull && m1.queue == m.queue[1..]
            && Left(m1) == Left(m) + 1 && Tag(m1) == Tag(m)
            && m1.stats == m.stats.(rectsSent := m.stats.rectsSent + 1)
  {
  }

  lemma ArrivedBehind(m: Sender, m1: Sender, m2: Sender, f: Frame, n: nat)
    requires Arrived(m1, m2, f, n) && |m1.log| >= |m.log| && m1.hist == m.hist && m1.needFull == m.needFull
    requires Heard(m1.log).commits == Heard(m.log).commits && |m.queue| == |m1.queue| + 1
    requires m1.stats == m.stats.(rectsSent := m.stats.rectsSent + 1)
    ensures Arrived(m, m2, f, n + |m1.log| - |m.log|)
  {
    hide Heard, Bytes;
  }

  // ---- from any reachable state ----

  /** The frame in flight, flushed now if it has not been, and pumped to rest. */
  function FlushAndPump(m: Sender, script: Script): Sender {
    Progress.Pumps(Flush(m), |m.queue| + 1, script)
  }

  lemma FlushSafe(m: Sender, script: Script)
    requires Carried(Split(m, Outside)) && (m.building || m.endQueued) && m.hist != [] && Safe(m, script)
    ensures var m1 := Flush(m);
            && Carried(Split(m1, Outside)) && m1.endQueued && m1.hist != [] && Safe(m1, script)
            && m1.log == m.log && m1.queue == m.queue && m1.stats == m.stats && m1.needFull == m.needFull
            && Left(m1) == Left(m)
            && |m1.hist| == |m.hist| && Last(m1.hist) == Last(m.hist).(flushed := true)
            && (forall k | 0 <= k < |m.hist| - 1 :: m1.hist[k] == m.hist[k])
  {
    FlushCarried(Split(m, Outside));
    assert m.endQueued ==> Last(m.hist).flushed;
    hide Heard, Bytes, Carried, Unharmed;
  }

  /** The commit, the messages it took, and the sender afterwards. */
  ghost predicate FlushArrives(m: Sender, script: Script)
    requires m.hist != []
  {
    var m', f := FlushAndPump(m, script), Last(m.hist);
    && Heard(m'.log).commits == Heard(m.log).commits + [Committed(BeginOf(f), f.rects)]
    && Heard(m'.log).hasBase && |m'.log| == |m.log| + |m.queue| + (if Left(m) == 0 then 2 else 1)
    && !Busy(m') && m'.needFull == m.needFull && Counted(m.stats, m'.stats, f, |m.queue|)
    && |m'.hist| == |m.hist| && Last(m'.hist) == f.(flushed := true)
  }

  lemma FlushThenDrain(m: Sender, script: Script)
    requires Carried(Split(m, Outside)) && (m.building || m.endQueued) && m.hist != [] && Safe(m, script)
    ensures FlushArrives(m, script)
  {
    hide Carried, Safe, Heard, Progress.Pumps, Bytes, Flush;
    FlushSafe(m, script);
    Drains(Flush(m), script);
  }

  lemma {:induction false} RunCarried(s: Split, acts: seq<Action>, script: Script)
    requires Carried(s) && Plain(s) && LegalRun(s, acts, script) && TameRun(s, acts, script)
    ensures Carried(After(s, acts, script))
    decreases |acts|
  {
    hide Carried, Plain;
    if acts != [] {
      ActCarried(s, acts[0], script);
      PlainKept(s, acts[0], script);
      RunCarried(Act(s, acts[0], script), acts[1..], script);
    }
  }

  /** Main result 5. At whatever point of whatever tame run the UI flushes: if what is still to be sent of the frame
      arrives, as what has been sent did, its counts and messages fit their fields and a PARTIAL frame finds a base, then
      pump commits it whole, with one message for every slot and one for each end of the frame still to come. */
  lemma FlushedFrameArrives(queueSlots: nat, slotBytes: nat, acts: seq<Action>, script: Script)
    requires LegalRun(Start(queueSlots, slotBytes), acts, script) && TameRun(Start(queueSlots, slotBytes), acts, script)
    ensures var s := After(Start(queueSlots, slotBytes), acts, script);
            var m := s.m;
            && (s.pc.Outside? && (m.building || m.endQueued) ==>
                  m.hist != [] && (Safe(m, script) ==> FlushArrives(m, script)))
            && (m.abortPending.Some? ==> m.hist != [] && (Last(m.hist).dropped || RectFailed(m.log, |m.hist| - 1)))
  {
    hide Carried, FlushArrives, Safe, RectFailed;
    BlankCarried(queueSlots, slotBytes);
    RunCarried(Start(queueSlots, slotBytes), acts, script);
    var s := After(Start(queueSlots, slotBytes), acts, script);
    FrameIsThere(s);
    if s.pc.Outside? && (s.m.building || s.m.endQueued) && Safe(s.m, script) {
      FlushThenDrain(s.m, script);
    }
  }

  lemma FrameIsThere(s: Split)
    requires Carried(s)
    ensures InFlight(s.m) ==> s.m.hist != []
    ensures s.m.abortPending.Some? ==> s.m.hist != [] && (Last(s.m.hist).dropped || RectFailed(s.m.log, |s.m.hist| - 1))
  {
  }

  // ---- a frame given up ----

  /** All that is left of an aborted frame: slots to free and, if it was begun, its end. */
  ghost predicate Ended(m: Sender, m': Sender, script: Script) {
    && !Busy(m') && (m.needFull ==> m'.needFull) && m'.stats.rectsDropped == m.stats.rectsDropped + |m.queue|
    && Heard(m'.log).commits == Heard(m.log).commits
    && m'.log == (if m.wire.open then m.log + [AbortedEnd(m, script)] else m.log)
  }

  ghost function AbortedEnd(m: Sender, script: Script): Entry {
    Sent(FrameEnd(m.wire.id, m.wire.rects % 0x1_0000, m.wire.bytes % 0x1_0000_0000, true), script(|m.log|), Tag(m))
  }

  lemma ClosesAborted(m: Sender, script: Script)
    requires m.queue == [] && m.abortPending.Some?
    ensures Ended(m, Progress.Pumps(m, 1, script), script)
  {
    hide SendEnd, CloseOut, Heard, OnMessage, Payload;
    Progress.PumpOfNothing(m, script);
    var m' := Progress.Closed(m, script, Tag(m));
    assert Progress.Pumps(m, 1, script) == Progress.Pumps(m', 0, script);
    var (m1, c) := CloseOut(m);
    AbortCloses(m);
    if m.wire.open {
      EndEffect(m1, script, c, Tag(m));
      EndSent(m1, script, c, Tag(m));
      var e := AbortedEnd(m, script);
      HearOne(m.log, e);
      HearEnd(Heard(m.log), e.msg.endId, e.msg.rectCount, e.msg.byteCount, true);
    }
  }

  lemma AbortCloses(m: Sender)
    requires m.abortPending.Some?
    ensures CloseOut(m) ==
            (m.(wire := m.wire.(open := false), endQueued := false, building := false, abortPending := None),
             if m.wire.open then AbortEnd(m.wire.id, m.wire.rects, m.wire.bytes) else Cleared)
  {
  }

  lemma {:induction false} AbortDrains(m: Sender, script: Script)
    requires OfOneFrame(m) && m.abortPending == Some(m.frameId)
    ensures Ended(m, Progress.Pumps(m, |m.queue| + 1, script), script)
    decreases |m.queue|
  {
    hide Heard, CloseOut, PumpSlot;
    if m.queue == [] {
      ClosesAborted(m, script);
    } else {
      AbortDrains(DiscardHead(m), script);
      assert Pump(m, script).0 == DiscardHead(m);
    }
  }

  /** At whatever point of whatever tame run: pump frees an aborted frame's slots without sending them and closes it with an
      aborted end if it was begun. It is not committed, and the next frame is FULL. */
  lemma GivenUpFrameEnds(queueSlots: nat, slotBytes: nat, acts: seq<Action>, script: Script)
    requires LegalRun(Start(queueSlots, slotBytes), acts, script) && TameRun(Start(queueSlots, slotBytes), acts, script)
    ensures var s := After(Start(queueSlots, slotBytes), acts, script);
            var m' := Progress.Pumps(s.m, |s.m.queue| + 1, script);
            s.pc.Outside? && s.m.abortPending.Some? ==> Ended(s.m, m', script) && m'.needFull
  {
    BlankCarried(queueSlots, slotBytes);
    RunCarried(Start(queueSlots, slotBytes), acts, script);
    OneFrameAtATime(queueSlots, slotBytes, acts, script);
    hide OfOneFrame, Inv, Geometry, OnScreen, Abandoned;
    var s := After(Start(queueSlots, slotBytes), acts, script);
    if s.pc.Outside? && s.m.abortPending.Some? {
      AbortDrains(s.m, script);
    }
  }

  lemma {:induction false} TicksCarried(s: Split, n: nat, script: Script)
    requires Carried(s) && Plain(s) && CalmTicks(s, n, script)
    ensures Carried(Ticks(s, n, script))
    decreases n
  {
    hide Carried;
    if n > 0 {
      StepCarried(s, script);
      PlainKept(s, Tick, script);
      TicksCarried(Step(s, script), n - 1, script);
    }
  }

  lemma {:induction false} CallsCarried(m: Sender, acts: seq<Action>, script: Script)
    requires Carried(Split(m, Outside)) && LegalCalls(acts)
    ensures Carried(Split(Calls(m, acts, script), Outside))
    decreases |acts|
  {
    hide Carried, Pump;
    if acts != [] {
      assert LegalCall(acts[0]);
      if acts[0].Tick? {
        var n := PumpIsItsSteps(m, script);
        TicksCarried(Split(m, Outside), n, script);
      } else {
        ActCarried(Split(m, Outside), acts[0], script);
      }
      CallsCarried(Call(m, acts[0], script), acts[1..], script);
    }
  }

  /** With pump as one uninterrupted call: after any calls whatever. */
  lemma UninterruptedArrives(queueSlots: nat, slotBytes: nat, acts: seq<Action>, script: Script)
    requires LegalCalls(acts)
    ensures var m := Calls(Blank(queueSlots, slotBytes), acts, script);
            && (m.building || m.endQueued ==> m.hist != [] && (Safe(m, script) ==> FlushArrives(m, script)))
            && (m.abortPending.Some? ==> m.hist != [] && (Last(m.hist).dropped || RectFailed(m.log, |m.hist| - 1)))
  {
    hide Carried, FlushArrives, Safe, RectFailed, Calls;
    BlankCarried(queueSlots, slotBytes);
    CallsCarried(Blank(queueSlots, slotBytes), acts, script);
    var m := Calls(Blank(queueSlots, slotBytes), acts, script);
    FrameIsThere(Split(m, Outside));
    if (m.building || m.endQueued) && Safe(m, script) {
      FlushThenDrain(m, script);
    }
  }
}
