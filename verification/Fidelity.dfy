/** What the receiver commits, for every interleaving of UI calls with pump and every sink behaviour:
    each committed frame is, rectangle for rectangle, one frame the UI built, flushed and never dropped,
    and frames are committed in the order they were built. */
module Fidelity {
  import opened Wire
  import opened SenderState
  import opened SplitPump
  import opened FrameAssembly

  // ---- the receiver at the other end of the log ----

  function Hear(a: Assembler, e: Entry): Assembler {
    match e
    case SessionReset => OnReset(a)
    case Sent(msg, o, _) =>
      match o
      case Delivered => OnMessage(a, TypeOf(msg), Payload(msg))
      case Refused => a
      case _ => OnStreamError(a)
  }

  function Heard(log: seq<Entry>): Assembler {
    if log == [] then FRESH else Hear(Heard(log[..|log| - 1]), log[|log| - 1])
  }

  /** For every commit of the receiver, the index in the sender's history of the frame whose end caused it. */
  function Origins(log: seq<Entry>): seq<nat> {
    if log == [] then []
    else
      var before := log[..|log| - 1];
      var e := log[|log| - 1];
      Origins(before) + if e.Sent? && |Heard(log).commits| > |Heard(before).commits| then [e.frame] else []
  }

  lemma HearOne(log: seq<Entry>, e: Entry)
    ensures Heard(log + [e]) == Hear(Heard(log), e)
    ensures Origins(log + [e]) ==
            Origins(log) + if e.Sent? && |Hear(Heard(log), e).commits| > |Heard(log).commits| then [e.frame] else []
  {
    assert (log + [e])[..|log|] == log;
  }

  lemma HearBegin(a: Assembler, id: u16, t: FrameType, w: u16, h: u16)
    ensures var a' := OnMessage(a, TYPE_FRAME_BEGIN, Payload(FrameBegin(id, t, w, h)));
            && a'.commits == a.commits
            && (a'.state == InFrame ==> a'.begin == BeginInfo(id, t, w, h) && a'.rects == [])
  {
    BeginFields(id, t, w, h);
  }

  lemma HearRect(a: Assembler, r: Rect)
    ensures var a' := OnMessage(a, TYPE_FRAME_RECT, Payload(FrameRect(r)));
            && a'.commits == a.commits
            && (a'.state == InFrame ==> a.state == InFrame && a'.begin == a.begin && a'.rects == a.rects + [r])
  {
    RectFields(r);
    var rh := Rect(ReadU16(Payload(FrameRect(r)), 0), ReadU16(Payload(FrameRect(r)), 2),
                   ReadU16(Payload(FrameRect(r)), 4), ReadU16(Payload(FrameRect(r)), 6), Payload(FrameRect(r))[8..]);
    assert rh == r;
  }

  lemma HearEnd(a: Assembler, id: u16, rects: u16, bytes: u32, aborted: bool)
    ensures var a' := OnMessage(a, TYPE_FRAME_END, Payload(FrameEnd(id, rects, bytes, aborted)));
            && a'.state != InFrame
            && (a'.commits == a.commits
                || (!aborted && a.state == InFrame && a'.commits == a.commits + [Committed(a.begin, a.rects)]))
  {
    EndFields(id, rects, bytes, aborted);
  }

  // ---- fidelity ----

  function BeginOf(f: Frame): BeginInfo {
    BeginInfo(f.id, f.ftype, f.width % 0x1_0000, f.height % 0x1_0000)
  }

  ghost predicate Increasing(org: seq<nat>) { forall i, j | 0 <= i < j < |org| :: org[i] < org[j] }

  ghost predicate Shows(c: Committed, f: Frame) {
    c == Committed(BeginOf(f), f.rects) && f.flushed && !f.dropped && f.rects != []
  }

  ghost predicate Faithful(commits: seq<Committed>, org: seq<nat>, hist: seq<Frame>) {
    && |org| == |commits|
    && Increasing(org)
    && (forall i | 0 <= i < |org| :: org[i] < |hist| && Shows(commits[i], hist[org[i]]))
  }

  /** A committed frame is finished: nothing in flight can still touch it. */
  ghost predicate Settled(s: Split, org: seq<nat>) {
    && (forall i | 0 <= i < |org| :: org[i] == |s.m.hist| - 1 ==> !Busy(s.m))
    && (s.pc.Ending? ==> forall i | 0 <= i < |org| :: org[i] < s.pc.frame)
  }

  ghost predicate Geometry(m: Sender) {
    && (forall k | 0 <= k < |m.hist| :: 1 <= m.hist[k].width <= MAX_SIDE && 1 <= m.hist[k].height <= MAX_SIDE)
    && ((InFlight(m) || m.queue != []) && m.hist != [] ==> Last(m.hist).width == m.width && Last(m.hist).height == m.height)
  }

  /** Whatever the receiver has open is what the sender has sent of the frame it is sending. */
  ghost predicate InStep(s: Split, a: Assembler)
    requires Inv(s)
  {
    var m := s.m;
    && (InFlight(m) && m.abortPending.None? ==> !Last(m.hist).dropped)
    && (m.wire.open && m.abortPending.None? && a.state == InFrame ==>
          a.begin == BeginOf(Last(m.hist)) && a.rects == Last(m.hist).rects[..SentCount(s)])
    && (s.pc.Ending? && s.pc.closing.CommitEnd? ==>
          && !m.hist[s.pc.frame].dropped && s.pc.closing.rects == |m.hist[s.pc.frame].rects|
          && (a.state == InFrame ==>
                a.begin == BeginOf(m.hist[s.pc.frame]) && a.rects == m.hist[s.pc.frame].rects))
  }

  ghost predicate Exact(s: Split) {
    var a, org := Heard(s.m.log), Origins(s.m.log);
    Inv(s) && Geometry(s.m) && Faithful(a.commits, org, s.m.hist) && Settled(s, org) && InStep(s, a)
  }

  lemma BlankExact(queueSlots: nat, slotBytes: nat)
    ensures Exact(Split(Blank(queueSlots, slotBytes), Outside))
  {
    BlankInv(queueSlots, slotBytes);
  }

  /** Growing the history, or changing its last frame while that frame is uncommitted, keeps Faithful. */
  lemma FaithfulGrows(commits: seq<Committed>, org: seq<nat>, hist: seq<Frame>, hist': seq<Frame>)
    requires Faithful(commits, org, hist) && |hist| <= |hist'|
    requires forall k | 0 <= k < |hist| - 1 :: hist'[k] == hist[k]
    requires hist != [] && hist'[|hist| - 1] != hist[|hist| - 1] ==> forall i | 0 <= i < |org| :: org[i] != |hist| - 1
    ensures Faithful(commits, org, hist')
  {
    forall i | 0 <= i < |org| ensures org[i] < |hist'| && Shows(commits[i], hist'[org[i]]) {
      assert Shows(commits[i], hist[org[i]]);
    }
  }

  // ---- UI calls: the log does not move ----

  lemma StartExact(s: Split, r: Rect)
    requires Exact(s) && !s.m.building && !s.m.endQueued && s.m.queue == [] && s.m.abortPending.None?
    requires s.m.width >= 1 && s.m.height >= 1
    ensures Exact(Split(Enqueue(StartFrame(s.m), r), s.pc))
  {
    var m := s.m;
    var m' := Enqueue(StartFrame(m), r);
    StartFrameKeeps(m, r, s.pc);
    assert m'.hist[..|m.hist|] == m.hist && |m'.hist| == |m.hist| + 1;
    FaithfulGrows(Heard(m.log).commits, Origins(m.log), m.hist, m'.hist);
    assert Settled(Split(m', s.pc), Origins(m.log));
    assert Geometry(m');
  }

  lemma EnqueueExact(s: Split, r: Rect)
    requires Exact(s) && s.m.building && |s.m.queue| < s.m.slots
    ensures Exact(Split(Enqueue(s.m, r), s.pc))
  {
    var m := s.m;
    var m' := Enqueue(m, r);
    EnqueueKeeps(m, r, s.pc);
    FaithfulGrows(Heard(m.log).commits, Origins(m.log), m.hist, m'.hist);
    assert Last(m'.hist).rects[..|Last(m.hist).rects|] == Last(m.hist).rects;
    if m.wire.open {
      assert Last(m'.hist).rects[..SentCount(s)] == Last(m.hist).rects[..SentCount(s)];
    }
  }

  lemma StatsExact(s: Split, m': Sender)
    requires Exact(s) && m' == s.m.(stats := m'.stats)
    ensures Exact(Split(m', s.pc))
  {
    SameButStats(s.m, m', s.pc);
  }

  lemma WriteExact(s: Split, x: int, y: int, w: int, h: int, px: Option<seq<byte>>)
    requires Exact(s) && Readable(w, h, px)
    ensures Exact(Split(WriteRect(s.m, x, y, w, h, px).1, s.pc))
  {
    var (status, m') := WriteRect(s.m, x, y, w, h, px);
    WriteCases(s.m, x, y, w, h, px);
    hide WriteRect;
    if status != Ok {
      StatsExact(s, m');
    } else if s.m.building {
      EnqueueExact(s, RectOf(x, y, w, h, px));
    } else {
      StartExact(s, RectOf(x, y, w, h, px));
    }
  }

  lemma FlushExact(s: Split)
    requires Exact(s)
    ensures Exact(Split(Flush(s.m), s.pc))
  {
    FlushKeeps(s.m, s.pc);
    FaithfulGrows(Heard(s.m.log).commits, Origins(s.m.log), s.m.hist, Flush(s.m).hist);
  }

  lemma DropMarks(m: Sender)
    ensures var hist := DropPendingFrame(m).hist;
            && |hist| == |m.hist| && (forall k | 0 <= k < |hist| - 1 :: hist[k] == m.hist[k])
            && (hist != [] ==> Last(hist) == Last(m.hist) || (Busy(m) && Last(hist) == Last(m.hist).(dropped := true)))
            && (Busy(m) || InFlight(m) || hist == m.hist)
  {
  }

  lemma DropExact(s: Split)
    requires Exact(s)
    ensures Exact(Split(DropPendingFrame(s.m), s.pc))
  {
    hide Heard, Origins, Bytes, HistIds, SlotOf, Faithful, MarkDropped;
    DropKeeps(s.m, s.pc);
    DropMarks(s.m);
    FaithfulGrows(Heard(s.m.log).commits, Origins(s.m.log), s.m.hist, DropPendingFrame(s.m).hist);
  }

  lemma ClearExact(m: Sender)
    requires Exact(Split(m, Outside))
    ensures Exact(Split(ClearFrame(m), Outside)) && !Busy(ClearFrame(m))
  {
    ClearKeeps(m);
    FaithfulGrows(Heard(m.log).commits, Origins(m.log), m.hist, ClearFrame(m).hist);
  }

  /** A change of session fields, with or without telling the receiver to start over. */
  lemma QuietExact(m: Sender, m': Sender)
    requires Exact(Split(m, Outside))
    requires m' == m.(width := m'.width, height := m'.height, enabled := m'.enabled, connected := m'.connected,
                      needFull := m'.needFull, stats := m'.stats, log := m'.log)
    requires m'.log == m.log || m'.log == m.log + [SessionReset]
    requires (m'.width == m.width && m'.height == m.height)
             || (!InFlight(m) && m.queue == [] && 1 <= m'.width <= MAX_SIDE && 1 <= m'.height <= MAX_SIDE)
    ensures Exact(Split(m', Outside))
  {
    hide Heard, Origins, Bytes, HistIds, SlotOf, Faithful;
    SameQueue(m, m');
    HearOne(m.log, SessionReset);
    assert Origins(m.log) + [] == Origins(m.log);
    assert Geometry(m');
    assert Settled(Split(m', Outside), Origins(m.log));
    assert InStep(Split(m', Outside), Heard(m'.log));
  }

  lemma SessionExact(m: Sender, a: Action, script: Script)
    requires Exact(Split(m, Outside)) && Session(a)
    ensures Exact(Act(Split(m, Outside), a, script))
  {
    hide Exact, ClearFrame;
    ClearEffect(m);
    match a
    case Connect => QuietExact(m, OnConnected(m));
    case Enable(on) =>
      if on {
        QuietExact(m, SetEnabled(m, on));
      } else {
        ClearExact(m);
        QuietExact(ClearFrame(m), SetEnabled(m, on));
      }
    case Disconnect =>
      if m.connected {
        ClearExact(m);
        QuietExact(ClearFrame(m), OnDisconnected(m));
      }
    case Configure(w, h, rgb) =>
      if Init(m, w, h, rgb).0 == Ok {
        ClearExact(m);
        QuietExact(ClearFrame(m), Init(m, w, h, rgb).1);
      }
  }

  // ---- pump steps ----

  lemma HearSentBegin(m: Sender, script: Script, held: Held)
    ensures var m', a := SendBegin(m, script, held).0, Heard(m.log);
            var a' := Heard(m'.log);
            && a'.commits == a.commits && Origins(m'.log) == Origins(m.log)
            && (m'.wire.open && !m.wire.open && a'.state == InFrame ==>
                  && a'.rects == []
                  && a'.begin == BeginInfo(held.id, held.ftype, m.width % 0x1_0000, m.height % 0x1_0000))
  {
    hide OnMessage, Payload, Origins, Heard, Fate, CountFrame, Tag;
    var msg := FrameBegin(held.id, held.ftype, m.width % 0x1_0000, m.height % 0x1_0000);
    HearOne(m.log, Sent(msg, Fate(msg, script(|m.log|)), Tag(m)));
    HearBegin(Heard(m.log), msg.id, msg.ftype, msg.width, msg.height);
  }

  lemma BeginExact(s: Split, script: Script)
    requires Exact(s) && s.pc.Taken?
    ensures Exact(Step(s, script))
  {
    hide Heard, Origins, Bytes, HistIds, SendBegin, Faithful, SlotOf;
    var m, held, s' := s.m, s.pc.held, Step(s, script);
    BeginKeeps(s, script);
    if held.isFirst {
      HeldIsNext(s);
      BeginEffect(m, script, held);
      HearSentBegin(m, script, held);
      assert Last(m.hist).rects[..0] == [];
      assert InStep(s', Heard(s'.m.log));
      assert Settled(s', Origins(m.log));
    }
  }

  lemma HearSentRect(m: Sender, script: Script, held: Held, r: Rect)
    requires m.queue != [] && r == Rect(held.x, held.y, held.w, held.h, m.queue[0].rect.pixels)
    ensures var m', a := SendRect(m, script, held), Heard(m.log);
            var a' := Heard(m'.log);
            && a'.commits == a.commits && Origins(m'.log) == Origins(m.log)
            && (m'.wire.open && m'.abortPending.None? && a'.state == InFrame ==>
                  a.state == InFrame && a'.begin == a.begin && a'.rects == a.rects + [r])
  {
    hide OnMessage, Payload, Origins, Heard, Fate, CountFrame, Tag;
    var msg := FrameRect(r);
    HearOne(m.log, Sent(msg, Fate(msg, script(|m.log|)), Tag(m)));
    HearRect(Heard(m.log), r);
  }

  lemma RectExact(s: Split, script: Script)
    requires Exact(s) && s.pc.Begun?
    ensures Exact(Step(s, script))
  {
    StepKeeps(s, script);
    if s.pc.active {
      SentRectExact(s, script, SendRect(s.m, script, s.pc.held));
    } else {
      assert !s.m.wire.open by { HeldIsNext(s); }
      StreamedExact(s, s.m);
    }
  }

  lemma SentRectExact(s: Split, script: Script, m': Sender)
    requires Exact(s) && s.pc.Begun? && s.pc.active && m' == SendRect(s.m, script, s.pc.held)
    requires Inv(Split(m', Streamed))
    ensures Exact(Split(m', Streamed))
  {
    hide Heard, Origins, SendRect, Current, QueueIsTail, WireIsCurrent, PcOk, Faithful, Settled, Geometry;
    var m, held := s.m, s.pc.held;
    HeldIsNext(s);
    var rs := Last(m.hist).rects;
    assert InStep(s, Heard(m.log));
    HearSentRect(m, script, held, rs[Left(m)]);
    SendRectEffect(m, script, held);
    assert rs[..Left(m) + 1] == rs[..Left(m)] + [rs[Left(m)]];
    StreamedExact(s, m');
  }

  lemma StreamedExact(s: Split, m': Sender)
    requires Exact(s) && s.pc.Begun? && Inv(Split(m', Streamed))
    requires m' == s.m.(log := m'.log, stats := m'.stats, needFull := m'.needFull, abortPending := m'.abortPending,
                        wire := m'.wire)
    requires m'.wire.open == s.m.wire.open
    requires m'.abortPending == s.m.abortPending || (s.m.wire.open && m'.abortPending.Some?)
    requires Heard(m'.log).commits == Heard(s.m.log).commits && Origins(m'.log) == Origins(s.m.log)
    requires m'.wire.open && m'.abortPending.None? && Heard(m'.log).state == InFrame ==>
               && Heard(s.m.log).state == InFrame && Heard(m'.log).begin == Heard(s.m.log).begin
               && Heard(m'.log).rects == Last(m'.hist).rects[..SentCount(Split(m', Streamed))]
    ensures Exact(Split(m', Streamed))
  {
    hide Heard, Origins, Bytes, HistIds;
    assert InStep(Split(m', Streamed), Heard(m'.log));
  }

  lemma HearSentEnd(m: Sender, script: Script, c: Closing, k: nat)
    requires c.Sends()
    ensures var m', a := SendEnd(m, script, c, k), Heard(m.log);
            var a' := Heard(m'.log);
            && m' == m.(log := m'.log, needFull := m'.needFull, stats := m'.stats)
            && (a'.state == InFrame ==> a' == a)
            && ((a'.commits == a.commits && Origins(m'.log) == Origins(m.log))
                || (c.CommitEnd? && a.state == InFrame && a'.commits == a.commits + [Committed(a.begin, a.rects)]
                    && Origins(m'.log) == Origins(m.log) + [k]))
  {
    hide OnMessage, Payload, Origins, Heard, Fate, CountFrame, Tag;
    var msg := EndMessage(c);
    HearOne(m.log, Sent(msg, Fate(msg, script(|m.log|)), k));
    HearEnd(Heard(m.log), msg.endId, msg.rectCount, msg.byteCount, msg.aborted);
  }

  lemma EndExact(s: Split, script: Script)
    requires Exact(s) && s.pc.Ending?
    ensures Exact(Step(s, script))
  {
    hide SendEnd, Heard, Origins, Bytes, HistIds, SlotOf;
    var m, c, k, s' := s.m, s.pc.closing, s.pc.frame, Step(s, script);
    EndKeeps(s, script);
    HearSentEnd(m, script, c, k);
    var org := Origins(s'.m.log);
    assert Faithful(Heard(s'.m.log).commits, org, m.hist) by {
      if org != Origins(m.log) {
        assert Shows(Committed(BeginOf(m.hist[k]), m.hist[k].rects), m.hist[k]);
      }
    }
    hide Faithful;
    assert Settled(s', org);
    assert InStep(s', Heard(s'.m.log));
  }

  lemma PopExact(s: Split, script: Script)
    requires Exact(s) && (s.pc.Streamed? || s.pc.Looked?)
    ensures Exact(Step(s, script))
  {
    hide Heard, Origins, Bytes, HistIds, SlotOf;
    var m, s' := s.m, Step(s, script);
    StepKeeps(s, script);
    assert s'.m.log == m.log && s'.m.hist == m.hist && (Busy(s'.m) ==> Busy(m));
    assert Settled(s', Origins(m.log));
    assert Geometry(s'.m);
    assert SentCount(s') == SentCount(s) || !s.m.wire.open || s.m.abortPending.Some?;
    assert InStep(s', Heard(m.log));
  }

  lemma CloseExact(s: Split)
    requires Exact(s) && Deciding(s) && !Strands(s) && !Cuts(s)
    ensures Exact(AfterClosing(s.m, CloseOut(s.m)))
  {
    hide Heard, Origins, Bytes, HistIds;
    var m, s' := s.m, AfterClosing(s.m, CloseOut(s.m));
    CloseKeeps(s);
    assert s'.m.log == m.log && s'.m.hist == m.hist && s'.m.queue == m.queue && (Busy(s'.m) ==> Busy(m));
    assert Settled(s', Origins(m.log));
    if m.wire.open && m.queue == [] {
      assert Last(m.hist).rects[..m.rectCount] == Last(m.hist).rects;
    }
    assert InStep(s', Heard(m.log));
  }

  lemma StepExact(s: Split, script: Script)
    requires Exact(s) && Calm(s, Tick)
    ensures Exact(Step(s, script))
  {
    match s.pc
    case Outside => if s.m.queue == [] { CloseExact(s); } else { StepKeeps(s, script); }
    case Taken(_) => BeginExact(s, script);
    case Begun(_, _) => RectExact(s, script);
    case Popped => CloseExact(s);
    case Ending(_, _) => EndExact(s, script);
    case _ => PopExact(s, script);
  }

  lemma ActExact(s: Split, a: Action, script: Script)
    requires Exact(s) && Legal(s, a) && Calm(s, a)
    ensures Exact(Act(s, a, script))
  {
    match a
    case Tick => StepExact(s, script);
    case Write(x, y, w, h, px) => WriteExact(s, x, y, w, h, px);
    case FlushFrame => FlushExact(s);
    case Drop => DropExact(s);
    case _ => SessionExact(s.m, a, script);
  }
}
