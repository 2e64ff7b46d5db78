/** What is left of fidelity when the end of a frame may overtake its last rectangles, that is in runs that are tame but
    not calm: a committed frame is still one frame of the UI, flushed, in order, but only its first rectangles may be
    there. Races.CommitIsWholeIff says when all are. */
module LooseSchedules {
  import opened Wire
  import opened SenderState
  import opened SplitPump
  import opened FrameAssembly
  import opened Fidelity
  import opened Runs

  // ---- what the receiver commits ----

  /** The first rectangles of a flushed frame, at least one. */
  ghost predicate ShowsStart(c: Committed, f: Frame) {
    c.begin == BeginOf(f) && c.rects != [] && c.rects <= f.rects && f.flushed
  }

  ghost predicate Prefixed(commits: seq<Committed>, org: seq<nat>, hist: seq<Frame>) {
    && |org| == |commits| && Increasing(org)
    && forall i | 0 <= i < |org| :: org[i] < |hist| && ShowsStart(commits[i], hist[org[i]])
  }

  /** A committed frame is closed for good. */
  ghost predicate Closed(s: Split, org: seq<nat>) {
    && (forall i | 0 <= i < |org| :: org[i] == |s.m.hist| - 1 ==>
          !s.m.building && !s.m.endQueued && !s.m.wire.open && Left(s.m) >= 1)
    && (s.pc.Ending? ==> forall i | 0 <= i < |org| :: org[i] < s.pc.frame)
  }

  ghost predicate Following(s: Split, a: Assembler)
    requires Inv(s)
  {
    var m := s.m;
    && (m.wire.open && m.abortPending.None? && a.state == InFrame ==>
          a.begin == BeginOf(Last(m.hist)) && a.rects == Last(m.hist).rects[..SentCount(s)])
    && (s.pc.Ending? && s.pc.closing.CommitEnd? && a.state == InFrame ==>
          var f := m.hist[s.pc.frame];
          a.begin == BeginOf(f) && a.rects == f.rects[..s.pc.closing.rects])
  }

  /** A frame with slots queued, or in flight, has the geometry of the screen. */
  ghost predicate Sized(m: Sender) {
    InFlight(m) || m.queue != [] ==>
      m.hist != [] && Last(m.hist).width == m.width && Last(m.hist).height == m.height
  }

  ghost predicate Partly(s: Split) {
    var a, org := Heard(s.m.log), Origins(s.m.log);
    Inv(s) && Sized(s.m) && Prefixed(a.commits, org, s.m.hist) && Closed(s, org) && Following(s, a)
  }

  lemma BlankPartly(queueSlots: nat, slotBytes: nat)
    ensures Partly(Split(Blank(queueSlots, slotBytes), Outside))
  {
    BlankInv(queueSlots, slotBytes);
  }

  /** A frame that may change later has not been committed. */
  lemma PrefixedGrows(commits: seq<Committed>, org: seq<nat>, hist: seq<Frame>, hist': seq<Frame>)
    requires Prefixed(commits, org, hist) && |hist| <= |hist'|
    requires forall k | 0 <= k < |hist| - 1 :: hist'[k] == hist[k]
    requires hist != [] && (exists i :: 0 <= i < |org| && org[i] == |hist| - 1) ==>
               hist'[|hist| - 1] == Last(hist).(dropped := hist'[|hist| - 1].dropped)
    ensures Prefixed(commits, org, hist')
  {
    forall i | 0 <= i < |org| ensures org[i] < |hist'| && ShowsStart(commits[i], hist'[org[i]]) {
      assert ShowsStart(commits[i], hist[org[i]]);
    }
  }

  lemma OriginsInside(commits: seq<Committed>, org: seq<nat>, hist: seq<Frame>)
    requires Prefixed(commits, org, hist)
    ensures forall i | 0 <= i < |org| :: org[i] < |hist|
  {
  }

  // ---- UI calls ----

  lemma StartPartly(s: Split, r: Rect)
    requires Partly(s) && !s.m.building && !s.m.endQueued && s.m.queue == [] && s.m.abortPending.None?
    ensures Partly(Split(Enqueue(StartFrame(s.m), r), s.pc))
  {
    hide Heard, Origins, Bytes, Prefixed, SlotOf, HistIds, Enqueue, StartFrame;
    var m, m' := s.m, Enqueue(StartFrame(s.m), r);
    StartFrameKeeps(m, r, s.pc);
    StartEffect(m, r);
    PrefixedGrows(Heard(m.log).commits, Origins(m.log), m.hist, m'.hist);
    OriginsInside(Heard(m.log).commits, Origins(m.log), m.hist);
    assert !m.wire.open;
    assert Closed(Split(m', s.pc), Origins(m.log));
  }

  lemma EnqueuePartly(s: Split, r: Rect)
    requires Partly(s) && s.m.building && |s.m.queue| < s.m.slots
    ensures Partly(Split(Enqueue(s.m, r), s.pc))
  {
    hide Heard, Origins, Bytes, Enqueue, SlotOf, HistIds;
    var m, m' := s.m, Enqueue(s.m, r);
    var rs := Last(m.hist).rects;
    EnqueueKeeps(m, r, s.pc);
    EnqueueEffect(m, r);
    assert (rs + [r])[..|rs|] == rs;
    PrefixedGrows(Heard(m.log).commits, Origins(m.log), m.hist, m'.hist);
    if m.wire.open {
      assert (rs + [r])[..SentCount(s)] == rs[..SentCount(s)];
    }
  }

  lemma StatsPartly(s: Split, m': Sender)
    requires Partly(s) && m' == s.m.(stats := m'.stats)
    ensures Partly(Split(m', s.pc))
  {
    SameButStats(s.m, m', s.pc);
  }

  lemma WritePartly(s: Split, x: int, y: int, w: int, h: int, px: Option<seq<byte>>)
    requires Partly(s) && Readable(w, h, px)
    ensures Partly(Split(WriteRect(s.m, x, y, w, h, px).1, s.pc))
  {
    var (status, m') := WriteRect(s.m, x, y, w, h, px);
    WriteCases(s.m, x, y, w, h, px);
    hide WriteRect;
    if status != Ok {
      StatsPartly(s, m');
    } else if s.m.building {
      EnqueuePartly(s, RectOf(x, y, w, h, px));
    } else {
      StartPartly(s, RectOf(x, y, w, h, px));
    }
  }

  lemma FlushPartly(s: Split)
    requires Partly(s)
    ensures Partly(Split(Flush(s.m), s.pc))
  {
    hide Heard, Origins, Bytes, SlotOf;
    FlushKeeps(s.m, s.pc);
    PrefixedGrows(Heard(s.m.log).commits, Origins(s.m.log), s.m.hist, Flush(s.m).hist);
  }

  lemma DropPartly(s: Split)
    requires Partly(s)
    ensures Partly(Split(DropPendingFrame(s.m), s.pc))
  {
    hide Heard, Origins, Bytes, SlotOf, Prefixed, HistIds;
    DropKeeps(s.m, s.pc);
    PrefixedGrows(Heard(s.m.log).commits, Origins(s.m.log), s.m.hist, DropPendingFrame(s.m).hist);
  }

  // ---- session calls ----

  lemma ClearPartly(m: Sender)
    requires Partly(Split(m, Outside))
    ensures Partly(Split(ClearFrame(m), Outside))
  {
    hide Heard, Origins, Bytes, SlotOf;
    ClearKeeps(m);
    PrefixedGrows(Heard(m.log).commits, Origins(m.log), m.hist, ClearFrame(m).hist);
  }

  lemma QuietPartly(m: Sender, m': Sender)
    requires Partly(Split(m, Outside))
    requires m' == m.(width := m'.width, height := m'.height, enabled := m'.enabled, connected := m'.connected,
                      needFull := m'.needFull, stats := m'.stats, log := m'.log)
    requires m'.log == m.log || m'.log == m.log + [SessionReset]
    requires m'.width <= MAX_SIDE && m'.height <= MAX_SIDE
    requires (m'.width == m.width && m'.height == m.height) || (!InFlight(m) && m.queue == [])
    ensures Partly(Split(m', Outside))
  {
    hide Heard, Origins, Bytes, SlotOf;
    HearOne(m.log, SessionReset);
    SameQueue(m, m');
  }

  lemma SessionPartly(m: Sender, a: Action, script: Script)
    requires Partly(Split(m, Outside)) && Session(a)
    ensures Partly(Act(Split(m, Outside), a, script))
  {
    assert m.width <= MAX_SIDE && m.height <= MAX_SIDE;
    hide Partly, ClearFrame;
    ClearPartly(m);
    ClearEffect(m);
    match a
    case Connect => QuietPartly(m, OnConnected(m));
    case Enable(on) => QuietPartly(if on then m else ClearFrame(m), SetEnabled(m, on));
    case Disconnect =>
      if m.connected {
        QuietPartly(ClearFrame(m), OnDisconnected(m));
      }
    case Configure(w, h, rgb) =>
      if Init(m, w, h, rgb).0 == Ok {
        QuietPartly(ClearFrame(m), Init(m, w, h, rgb).1);
      }
  }

  // ---- pump steps ----

  lemma BeginPartly(s: Split, script: Script)
    requires Partly(s) && s.pc.Taken?
    ensures Partly(Step(s, script))
  {
    hide Heard, Origins, Bytes, HistIds, SendBegin, Prefixed, SlotOf;
    var m, held, s' := s.m, s.pc.held, Step(s, script);
    BeginKeeps(s, script);
    if held.isFirst {
      HeldIsNext(s);
      BeginEffect(m, script, held);
      HearSentBegin(m, script, held);
      assert Last(m.hist).rects[..0] == [];
      assert Following(s', Heard(s'.m.log));
      assert Closed(s', Origins(m.log));
    }
  }

  lemma RectPartly(s: Split, script: Script)
    requires Partly(s) && s.pc.Begun?
    ensures Partly(Step(s, script))
  {
    hide SendRect, Heard, Origins, Bytes, HistIds, SlotOf, Prefixed, Closed;
    HeldIsNext(s);
    RectKeeps(s, script);
    if s.pc.active {
      var m, m' := s.m, SendRect(s.m, script, s.pc.held);
      var rs := Last(m.hist).rects;
      HearSentRect(m, script, s.pc.held, rs[Left(m)]);
      SendRectEffect(m, script, s.pc.held);
      assert rs[..Left(m) + 1] == rs[..Left(m)] + [rs[Left(m)]];
      RectStreamed(s, m');
    } else {
      RectStreamed(s, s.m);
    }
  }

  lemma RectStreamed(s: Split, m': Sender)
    requires Partly(s) && s.pc.Begun? && Inv(Split(m', Streamed))
    requires m' == s.m.(log := m'.log, stats := m'.stats, needFull := m'.needFull, abortPending := m'.abortPending,
                        wire := m'.wire)
    requires m'.wire.open == s.m.wire.open
    requires Heard(m'.log).commits == Heard(s.m.log).commits && Origins(m'.log) == Origins(s.m.log)
    requires m'.wire.open && m'.abortPending.None? && Heard(m'.log).state == InFrame ==>
               && s.m.abortPending.None?
               && Heard(s.m.log).state == InFrame && Heard(m'.log).begin == Heard(s.m.log).begin
               && Heard(m'.log).rects == Last(m'.hist).rects[..SentCount(Split(m', Streamed))]
    ensures Partly(Split(m', Streamed))
  {
    hide Heard, Origins, Bytes, HistIds, SlotOf;
    assert Following(Split(m', Streamed), Heard(m'.log));
  }

  lemma EndPartly(s: Split, script: Script)
    requires Partly(s) && s.pc.Ending?
    ensures Partly(Step(s, script))
  {
    hide Heard, Origins, Bytes, HistIds, SendEnd, SlotOf;
    var m, c, k, s' := s.m, s.pc.closing, s.pc.frame, Step(s, script);
    EndKeeps(s, script);
    HearSentEnd(m, script, c, k);
    var org := Origins(s'.m.log);
    assert Prefixed(Heard(s'.m.log).commits, org, m.hist) by {
      if org != Origins(m.log) {
        var f := m.hist[k];
        assert ShowsStart(Committed(BeginOf(f), f.rects[..c.rects]), f);
      }
    }
    assert Closed(s', org);
  }

  lemma PopPartly(s: Split, script: Script)
    requires Partly(s) && (s.pc.Streamed? || s.pc.Looked? || (s.pc.Outside? && s.m.queue != []))
    ensures Partly(Step(s, script))
  {
    hide Heard, Origins, Bytes, HistIds, SlotOf;
    var m, s' := s.m, Step(s, script);
    StepKeeps(s, script);
    assert SentCount(s') == SentCount(s) || !m.wire.open || m.abortPending.Some?;
  }

  lemma ClosePartly(s: Split)
    requires Partly(s) && Deciding(s) && !Strands(s)
    ensures Partly(AfterClosing(s.m, CloseOut(s.m)))
  {
    hide Heard, Origins, Bytes, HistIds, SlotOf;
    CloseKeeps(s);
    assert Closed(AfterClosing(s.m, CloseOut(s.m)), Origins(s.m.log));
  }

  lemma StepPartly(s: Split, script: Script)
    requires Partly(s) && Tame(s, Tick)
    ensures Partly(Step(s, script))
  {
    match s.pc
    case Outside => if s.m.queue == [] { ClosePartly(s); } else { PopPartly(s, script); }
    case Taken(_) => BeginPartly(s, script);
    case Begun(_, _) => RectPartly(s, script);
    case Popped => ClosePartly(s);
    case Ending(_, _) => EndPartly(s, script);
    case _ => PopPartly(s, script);
  }

  lemma ActPartly(s: Split, a: Action, script: Script)
    requires Partly(s) && Legal(s, a) && Tame(s, a)
    ensures Partly(Act(s, a, script))
  {
    match a
    case Tick => StepPartly(s, script);
    case Write(x, y, w, h, px) => WritePartly(s, x, y, w, h, px);
    case FlushFrame => FlushPartly(s);
    case Drop => DropPartly(s);
    case _ => SessionPartly(s.m, a, script);
  }

  // ---- whole runs ----

  lemma {:induction false} RunPartly(s: Split, acts: seq<Action>, script: Script)
    requires Partly(s) && Plain(s) && LegalRun(s, acts, script) && TameRun(s, acts, script)
    ensures Partly(Runs.After(s, acts, script))
    decreases |acts|
  {
    hide Partly, Plain;
    if acts != [] {
      ActPartly(s, acts[0], script);
      PlainKept(s, acts[0], script);
      RunPartly(Act(s, acts[0], script), acts[1..], script);
    }
  }

  /** For every sink, ends overtaking rectangles or not: each commit is the beginning, at least one rectangle, of one
      flushed frame of the UI, and commits come in the order of the frames. */
  lemma CommitsAreFrameStarts(queueSlots: nat, slotBytes: nat, acts: seq<Action>, script: Script)
    requires LegalRun(Start(queueSlots, slotBytes), acts, script) && TameRun(Start(queueSlots, slotBytes), acts, script)
    ensures var m := Runs.After(Start(queueSlots, slotBytes), acts, script).m;
            Prefixed(Heard(m.log).commits, Origins(m.log), m.hist)
  {
    BlankPartly(queueSlots, slotBytes);
    RunPartly(Start(queueSlots, slotBytes), acts, script);
  }
}
