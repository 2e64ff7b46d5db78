/** PARTIAL frames and their base. When a kOk answer means the message arrived, the receiver never skips a
    frame it will later patch: a committed PARTIAL frame directly follows the frame committed before it. */
module Continuity {
  import opened Wire
  import opened SenderState
  import opened SplitPump
  import opened FrameAssembly
  import opened Fidelity

  /** The sink never answers kOk for a message the receiver does not get. */
  ghost predicate Honest(script: Script) { forall n :: script(n) != Corrupted }

  /** A writeRect that opens a PARTIAL frame. */
  predicate OpensPartial(s: Split, a: Action)
    requires Legal(s, a)
  {
    a.Write? && !s.m.needFull && |WriteRect(s.m, a.x, a.y, a.w, a.h, a.px).1.hist| > |s.m.hist|
  }

  /** A second race: while a FRAME_END is being sent the next frame may already start, and it is PARTIAL
      before the fate of that end is known. A quiet step opens no PARTIAL frame in the gap of an end that fails. */
  predicate Quiet(s: Split, a: Action, script: Script)
    requires Legal(s, a)
  {
    s.pc.Ending? && OpensPartial(s, a) ==> script(|s.m.log|).Ok()
  }

  /** Frames whose counts fit the fields of FRAME_END; the receiver discards larger ones. */
  ghost predicate Representable(f: Frame) { |f.rects| <= MAX_FRAME_RECTS && Bytes(f.rects) <= MAX_FRAME_BYTES }

  ghost predicate AllRepresentable(hist: seq<Frame>) { forall k | 0 <= k < |hist| :: Representable(hist[k]) }

  ghost predicate FrameOnScreen(f: Frame) { forall i | 0 <= i < |f.rects| :: Fits(f.rects[i], f.width, f.height) }

  ghost predicate OnScreen(hist: seq<Frame>) { forall k | 0 <= k < |hist| :: FrameOnScreen(hist[k]) }

  function Base(org: seq<nat>): int { if org == [] then -1 else org[|org| - 1] }

  /** Between frames, a sender that would go on with PARTIAL has its last frame on the receiver's screen. */
  ghost predicate Rested(s: Split, a: Assembler, org: seq<nat>) {
    && (s.m.abortPending.Some? ==> s.m.needFull)
    && (!s.m.needFull && !InFlight(s.m) && !s.pc.Ending? ==> a.hasBase && Base(org) == |s.m.hist| - 1)
  }

  /** A PARTIAL frame in the making builds on the frame before it. */
  ghost predicate Chained(s: Split, a: Assembler, org: seq<nat>) {
    var m := s.m;
    m.hist != [] && Last(m.hist).ftype == Partial && !(s.pc.Ending? && s.pc.frame == |m.hist| - 2) ==>
      && (a.hasBase ==> Base(org) >= |m.hist| - 2)
      && (InFlight(m) && !m.needFull ==> a.hasBase)
  }

  ghost predicate Matched(s: Split, a: Assembler) {
    s.m.wire.open && !s.m.needFull ==>
      a.state == InFrame && a.rectCount == s.m.wire.rects && a.byteCount == s.m.wire.bytes
  }

  ghost predicate WillCommit(a: Assembler, c: Closing, f: Frame)
    requires c.Sends()
  {
    a.state == InFrame && a.rectCount == c.rects && a.byteCount == c.bytes && (f.ftype == Full || a.hasBase)
  }

  ghost predicate Finishing(s: Split, a: Assembler, org: seq<nat>, script: Script)
    requires Inv(s)
  {
    s.pc.Ending? ==>
      var m, c, k := s.m, s.pc.closing, s.pc.frame;
      var started := k == |m.hist| - 2;
      && (started ==> InFlight(m))
      && (!started && !m.needFull ==> c.CommitEnd? && WillCommit(a, c, m.hist[k]))
      && (started && Last(m.hist).ftype == Partial ==>
            c.CommitEnd? && WillCommit(a, c, m.hist[k]) && script(|m.log|) == Delivered)
      && (m.hist[k].ftype == Partial && a.hasBase ==> Base(org) >= k - 1)
  }

  ghost predicate Unbroken(org: seq<nat>, hist: seq<Frame>) {
    forall i | 0 <= i < |org| && org[i] < |hist| && hist[org[i]].ftype == Partial :: i > 0 && org[i - 1] + 1 == org[i]
  }

  ghost predicate Linked(s: Split, script: Script)
    requires Inv(s)
  {
    var a, org := Heard(s.m.log), Origins(s.m.log);
    Rested(s, a, org) && Chained(s, a, org) && Matched(s, a) && Finishing(s, a, org, script) && Unbroken(org, s.m.hist)
    && (a.hasBase ==> org != [])
  }

  ghost predicate Sound(s: Split, script: Script) {
    Exact(s) && OnScreen(s.m.hist) && (AllRepresentable(s.m.hist) ==> Linked(s, script))
  }

  lemma BlankSound(queueSlots: nat, slotBytes: nat, script: Script)
    ensures Sound(Split(Blank(queueSlots, slotBytes), Outside), script)
  {
    BlankExact(queueSlots, slotBytes);
  }

  // ---- UI calls ----

  lemma StartSound(s: Split, r: Rect, script: Script)
    requires Sound(s, script) && Honest(script)
    requires !s.m.building && !s.m.endQueued && s.m.queue == [] && s.m.abortPending.None?
    requires s.m.width >= 1 && s.m.height >= 1 && Fits(r, s.m.width, s.m.height)
    requires s.pc.Ending? && !s.m.needFull ==> script(|s.m.log|).Ok()
    ensures Sound(Split(Enqueue(StartFrame(s.m), r), s.pc), script)
  {
    var m, m' := s.m, Enqueue(StartFrame(s.m), r);
    var s' := Split(m', s.pc);
    StartExact(s, r);
    assert m'.hist[..|m.hist|] == m.hist && |m'.hist| == |m.hist| + 1 && Last(m'.hist).rects == [r];
    assert OnScreen(m'.hist);
    if AllRepresentable(m'.hist) {
      assert forall k | 0 <= k < |m.hist| :: m.hist[k] == m'.hist[k];
      assert !m.wire.open;
      assert Unbroken(Origins(m.log), m'.hist);
      assert Finishing(s', Heard(m.log), Origins(m.log), script);
      assert Chained(s', Heard(m.log), Origins(m.log));
    }
  }

  lemma EnqueueSound(s: Split, r: Rect, script: Script)
    requires Sound(s, script) && s.m.building && |s.m.queue| < s.m.slots
    requires Fits(r, s.m.width, s.m.height)
    ensures Sound(Split(Enqueue(s.m, r), s.pc), script)
  {
    var m, m' := s.m, Enqueue(s.m, r);
    EnqueueExact(s, r);
    var rs, rs' := Last(m.hist).rects, Last(m'.hist).rects;
    assert Last(m'.hist) == Last(m.hist).(rects := rs + [r]);
    assert FrameOnScreen(Last(m'.hist)) by {
      assert FrameOnScreen(Last(m.hist));
    }
    hide Exact, FrameOnScreen, Heard, Origins, SlotOf, WireIsCurrent;
    if AllRepresentable(m'.hist) {
      assert Representable(Last(m'.hist));
      BytesGrow(rs, r);
      assert Representable(Last(m.hist));
      assert forall k | 0 <= k < |m.hist| - 1 :: Representable(m'.hist[k]);
      assert AllRepresentable(m.hist);
      GrewLinked(s, m', script);
    }
  }

  lemma GrewLinked(s: Split, m': Sender, script: Script)
    requires Inv(s) && Linked(s, script) && Inv(Split(m', s.pc)) && s.m.building && m'.building && s.m.hist != []
    requires |m'.hist| == |s.m.hist| && forall k | 0 <= k < |m'.hist| :: m'.hist[k] == s.m.hist[k].(rects := m'.hist[k].rects)
    requires m'.log == s.m.log && m'.wire == s.m.wire && m'.needFull == s.m.needFull && m'.abortPending == s.m.abortPending
    ensures Linked(Split(m', s.pc), script)
  {
    hide Current, QueueIsTail, WireIsCurrent, Config, Heard, Origins;
  }

  ghost predicate SameButFlags(hist: seq<Frame>, hist': seq<Frame>) {
    && |hist'| == |hist|
    && forall k | 0 <= k < |hist| :: hist'[k] == hist[k].(flushed := hist'[k].flushed, dropped := hist'[k].dropped)
  }

  lemma FlagsFrames(hist: seq<Frame>, hist': seq<Frame>)
    requires SameButFlags(hist, hist')
    ensures OnScreen(hist) ==> OnScreen(hist')
    ensures AllRepresentable(hist') ==> AllRepresentable(hist)
  {
    hide Bytes, Fits;
    if OnScreen(hist) {
      forall k | 0 <= k < |hist'| ensures FrameOnScreen(hist'[k]) {
        assert FrameOnScreen(hist[k]);
      }
    }
    if AllRepresentable(hist') {
      forall k | 0 <= k < |hist| ensures Representable(hist[k]) {
        assert Representable(hist'[k]);
      }
    }
  }

  lemma FlagsLinked(s: Split, m': Sender, script: Script)
    requires Inv(s) && Linked(s, script) && Inv(Split(m', s.pc)) && m'.log == s.m.log && SameButFlags(s.m.hist, m'.hist)
    requires m'.wire == s.m.wire && (s.m.needFull ==> m'.needFull) && (InFlight(s.m) ==> InFlight(m'))
    requires m'.needFull || (InFlight(m') == InFlight(s.m) && m'.abortPending == s.m.abortPending)
    ensures Linked(Split(m', s.pc), script)
  {
    hide Heard, Origins, Bytes, Current, QueueIsTail, WireIsCurrent, Config;
  }

  lemma FlagsSound(s: Split, m': Sender, script: Script)
    requires Sound(s, script) && Exact(Split(m', s.pc)) && m'.log == s.m.log && SameButFlags(s.m.hist, m'.hist)
    requires m'.wire == s.m.wire && (s.m.needFull ==> m'.needFull) && (InFlight(s.m) ==> InFlight(m'))
    requires m'.needFull || (InFlight(m') == InFlight(s.m) && m'.abortPending == s.m.abortPending)
    ensures Sound(Split(m', s.pc), script)
  {
    hide Heard, Origins, Exact, OnScreen, AllRepresentable, Linked, SameButFlags, InFlight;
    ExactIsInv(s);
    ExactIsInv(Split(m', s.pc));
    FlagsFrames(s.m.hist, m'.hist);
    if AllRepresentable(m'.hist) {
      FlagsLinked(s, m', script);
    }
  }

  lemma ExactIsInv(s: Split)
    requires Exact(s)
    ensures Inv(s)
  {
  }

  lemma StartIsLonger(m: Sender, r: Rect)
    ensures |Enqueue(StartFrame(m), r).hist| == |m.hist| + 1
  {
  }

  lemma WriteSound(s: Split, x: int, y: int, w: int, h: int, px: Option<seq<byte>>, script: Script)
    requires Sound(s, script) && Honest(script) && Readable(w, h, px)
    requires Quiet(s, Write(x, y, w, h, px), script)
    ensures Sound(Split(WriteRect(s.m, x, y, w, h, px).1, s.pc), script)
  {
    var (status, m') := WriteRect(s.m, x, y, w, h, px);
    WriteCases(s.m, x, y, w, h, px);
    if status != Ok {
      StatsExact(s, m');
      FlagsSound(s, m', script);
    } else {
      AcceptedRect(s.m, x, y, w, h, px);
      var r := RectOf(x, y, w, h, px);
      assert Fits(r, s.m.width, s.m.height);
      hide WriteRect;
      if s.m.building {
        EnqueueSound(s, r, script);
      } else {
        StartIsLonger(s.m, r);
        StartSound(s, r, script);
      }
    }
  }

  lemma FlushSound(s: Split, script: Script)
    requires Sound(s, script)
    ensures Sound(Split(Flush(s.m), s.pc), script)
  {
    FlushExact(s);
    hide Exact;
    FlagsSound(s, Flush(s.m), script);
  }

  lemma DropSound(s: Split, script: Script)
    requires Sound(s, script)
    ensures Sound(Split(DropPendingFrame(s.m), s.pc), script)
  {
    DropExact(s);
    hide Exact;
    FlagsSound(s, DropPendingFrame(s.m), script);
  }

  // ---- session calls ----

  lemma ClearLinked(m: Sender, m': Sender, script: Script)
    requires Inv(Split(m, Outside)) && Linked(Split(m, Outside), script) && Inv(Split(m', Outside)) && m'.log == m.log
    requires SameButFlags(m.hist, m'.hist) && m'.needFull && !m'.wire.open && !InFlight(m')
    ensures Linked(Split(m', Outside), script)
  {
    hide Heard, Origins, Bytes, Current, QueueIsTail, WireIsCurrent, Config;
  }

  lemma ClearSound(m: Sender, script: Script)
    requires Sound(Split(m, Outside), script)
    ensures Sound(Split(ClearFrame(m), Outside), script)
  {
    hide Heard, Origins, Exact, OnScreen, AllRepresentable, Linked, InFlight, Busy;
    var m' := ClearFrame(m);
    ClearExact(m);
    ClearEffect(m);
    ExactIsInv(Split(m, Outside));
    ExactIsInv(Split(m', Outside));
    FlagsFrames(m.hist, m'.hist);
    if AllRepresentable(m'.hist) {
      ClearLinked(m, m', script);
    }
  }

  lemma QuietSound(m: Sender, m': Sender, script: Script)
    requires Sound(Split(m, Outside), script) && Exact(Split(m', Outside))
    requires m' == m.(width := m'.width, height := m'.height, enabled := m'.enabled, connected := m'.connected,
                      needFull := m'.needFull, stats := m'.stats, log := m'.log)
    requires m'.needFull || (m'.needFull == m.needFull && m'.log == m.log)
    requires m'.log == m.log || m'.log == m.log + [SessionReset]
    ensures Sound(Split(m', Outside), script)
  {
    HearOne(m.log, SessionReset);
    hide Exact, FrameOnScreen, Origins, Heard;
  }

  lemma SessionSound(m: Sender, a: Action, script: Script)
    requires Sound(Split(m, Outside), script) && Session(a)
    ensures Sound(Act(Split(m, Outside), a, script), script)
  {
    hide Exact, OnScreen, Linked, AllRepresentable, ClearFrame;
    SessionExact(m, a, script);
    ClearEffect(m);
    match a
    case Connect => QuietSound(m, OnConnected(m), script);
    case Enable(on) =>
      if on {
        QuietSound(m, SetEnabled(m, on), script);
      } else {
        ClearSound(m, script);
        QuietSound(ClearFrame(m), SetEnabled(m, on), script);
      }
    case Disconnect =>
      if m.connected {
        ClearSound(m, script);
        QuietSound(ClearFrame(m), OnDisconnected(m), script);
      }
    case Configure(w, h, rgb) =>
      if Init(m, w, h, rgb).0 == Ok {
        ClearSound(m, script);
        QuietSound(ClearFrame(m), Init(m, w, h, rgb).1, script);
      }
  }

  // ---- what an honest sink's answers mean ----

  lemma HearBeginOk(a: Assembler, id: u16, t: FrameType, w: u16, h: u16, o: Outcome, k: nat)
    requires o != Corrupted && 1 <= w <= MAX_SIDE && 1 <= h <= MAX_SIDE
    ensures var a' := Hear(a, Sent(FrameBegin(id, t, w, h), o, k));
            && a'.hasBase == a.hasBase && a'.commits == a.commits
            && (o.Ok() ==> a'.state == InFrame && a'.rectCount == 0 && a'.byteCount == 0)
  {
    hide OnBegin, Payload;
    DeliverBegin(a, id, t, w, h);
  }

  lemma HearRectOk(a: Assembler, r: Rect, o: Outcome, k: nat)
    requires o == Fate(FrameRect(r), o) != Corrupted
    ensures var a' := Hear(a, Sent(FrameRect(r), o, k));
            && a'.hasBase == a.hasBase && a'.commits == a.commits
            && (o.Ok() && a.state == InFrame && Fits(r, a.begin.width, a.begin.height)
                && a.rectCount < MAX_FRAME_RECTS && a.byteCount + |r.pixels| <= MAX_FRAME_BYTES ==>
                  a'.state == InFrame && a'.rectCount == a.rectCount + 1 && a'.byteCount == a.byteCount + |r.pixels|)
  {
    if o == Delivered && a.state == InFrame && Fits(r, a.begin.width, a.begin.height) {
      hide OnRect, Payload;
      DeliverRect(a, r);
    }
    hide ParseRect, Payload;
  }

  lemma HearEndOk(a: Assembler, id: u16, rects: u16, bytes: u32, aborted: bool, o: Outcome, k: nat)
    requires o != Corrupted
    ensures var a' := Hear(a, Sent(FrameEnd(id, rects, bytes, aborted), o, k));
            if o.Ok() && a.state == InFrame && !aborted && id == a.begin.id && rects == a.rectCount && bytes == a.byteCount
               && (a.begin.ftype == Full || a.hasBase)
            then a'.hasBase && |a'.commits| == |a.commits| + 1
            else a'.hasBase == a.hasBase && a'.commits == a.commits
  {
    hide OnEnd, Payload;
    if a.state == InFrame {
      DeliverEnd(a, id, rects, bytes, aborted);
    } else {
      EndIgnored(a, Payload(FrameEnd(id, rects, bytes, aborted)));
    }
  }

  lemma EndIgnored(a: Assembler, p: seq<byte>)
    requires a.state != InFrame
    ensures OnEnd(a, p) == a
  {
  }

  lemma HonestBegin(m: Sender, script: Script, held: Held)
    requires Honest(script) && 1 <= m.width <= MAX_SIDE && 1 <= m.height <= MAX_SIDE
    ensures var (m', active) := SendBegin(m, script, held);
            var a, a' := Heard(m.log), Heard(m'.log);
            && a'.hasBase == a.hasBase && m'.hist == m.hist && Origins(m'.log) == Origins(m.log)
            && (active ==> a'.state == InFrame && a'.rectCount == 0 && a'.byteCount == 0 && m'.needFull == m.needFull)
            && (!active ==> m'.needFull)
  {
    hide Hear, Heard, Origins;
    var msg := FrameBegin(held.id, held.ftype, m.width % 0x1_0000, m.height % 0x1_0000);
    var o := Fate(msg, script(|m.log|));
    HearOne(m.log, Sent(msg, o, Tag(m)));
    HearBeginOk(Heard(m.log), msg.id, msg.ftype, msg.width, msg.height, o, Tag(m));
  }

  lemma HonestRect(m: Sender, script: Script, held: Held, r: Rect)
    requires Honest(script) && m.queue != []
    requires r == Rect(held.x, held.y, held.w, held.h, m.queue[0].rect.pixels)
    ensures var m', a := SendRect(m, script, held), Heard(m.log);
            var a' := Heard(m'.log);
            && a'.hasBase == a.hasBase && Origins(m'.log) == Origins(m.log)
            && (m.needFull ==> m'.needFull) && (m'.abortPending != m.abortPending ==> m'.needFull)
            && (a.state == InFrame && Fits(r, a.begin.width, a.begin.height)
                && a.rectCount < MAX_FRAME_RECTS && a.byteCount + |r.pixels| <= MAX_FRAME_BYTES && !m'.needFull ==>
                  && a'.state == InFrame && a'.rectCount == a.rectCount + 1 && a'.byteCount == a.byteCount + |r.pixels|
                  && m'.wire.rects == m.wire.rects + 1 && m'.wire.bytes == m.wire.bytes + held.bytes)
  {
    hide Hear, Heard, Origins, Fits;
    var msg := FrameRect(r);
    var o := Fate(msg, script(|m.log|));
    HearOne(m.log, Sent(msg, o, Tag(m)));
    HearRectOk(Heard(m.log), r, o, Tag(m));
  }

  predicate Commits(a: Assembler, c: Closing) {
    && a.state == InFrame && c.CommitEnd? && c.id == a.begin.id
    && c.rects % 0x1_0000 == a.rectCount && c.bytes % 0x1_0000_0000 == a.byteCount
    && (a.begin.ftype == Full || a.hasBase)
  }

  lemma HonestEnd(m: Sender, script: Script, c: Closing, k: nat)
    requires Honest(script) && c.Sends()
    ensures var m', a, delivered := SendEnd(m, script, c, k), Heard(m.log), script(|m.log|).Ok();
            var a' := Heard(m'.log);
            && (m'.needFull <==> m.needFull || !delivered)
            && (if delivered && Commits(a, c)
                then a'.hasBase && Origins(m'.log) == Origins(m.log) + [k]
                else a'.hasBase == a.hasBase && Origins(m'.log) == Origins(m.log))
  {
    hide Hear, Heard, Origins;
    var msg := EndMessage(c);
    var o := Fate(msg, script(|m.log|));
    HearOne(m.log, Sent(msg, o, k));
    HearEndOk(Heard(m.log), msg.endId, msg.rectCount, msg.byteCount, msg.aborted, o, k);
  }

  // ---- pump steps ----

  /** A step that commits nothing and opens or closes nothing only has to keep the wire counters matched. */
  lemma CarriesLinked(s: Split, s': Split, script: Script)
    requires Inv(s) && Inv(s') && Linked(s, script) && !s.pc.Ending? && !s'.pc.Ending?
    requires s'.m.hist == s.m.hist && Origins(s'.m.log) == Origins(s.m.log)
    requires Heard(s'.m.log).hasBase == Heard(s.m.log).hasBase
    requires s.m.needFull ==> s'.m.needFull
    requires s'.m.needFull || (InFlight(s'.m) == InFlight(s.m) && s'.m.abortPending == s.m.abortPending)
    requires Matched(s', Heard(s'.m.log))
    ensures Linked(s', script)
  {
    hide Heard, Origins, Current, QueueIsTail, WireIsCurrent, PcOk;
  }

  lemma BeginSound(s: Split, script: Script)
    requires Sound(s, script) && Honest(script) && s.pc.Taken?
    ensures Sound(Step(s, script), script)
  {
    hide Heard, Origins, SendBegin, OnScreen, Linked, Bytes, SlotOf, HistIds, Faithful;
    var m, held, s' := s.m, s.pc.held, Step(s, script);
    BeginExact(s, script);
    HeldIsNext(s);
    assert Geometry(m) && QueueIsTail(m) && Inv(s) && Inv(s');
    if held.isFirst {
      BeginEffect(m, script, held);
      HonestBegin(m, script, held);
      hide Heard, Origins;
      assert s'.m == m.(log := s'.m.log, needFull := s'.m.needFull, wire := s'.m.wire);
      assert s'.pc.active ==> s'.m.wire.rects == 0 && s'.m.wire.bytes == 0;
      assert s'.pc.Begun? && (!s'.m.needFull ==> s'.pc.active);
    }
    hide Exact, Inv, Geometry;
    if AllRepresentable(m.hist) {
      assert Matched(s, Heard(m.log)) by { LinkedParts(s, script); }
      CarriesLinked(s, s', script);
    }
  }

  lemma LinkedParts(s: Split, script: Script)
    requires Inv(s) && Linked(s, script)
    ensures Matched(s, Heard(s.m.log)) && Rested(s, Heard(s.m.log), Origins(s.m.log))
  {
  }

  lemma RectSound(s: Split, script: Script)
    requires Sound(s, script) && Honest(script) && s.pc.Begun?
    ensures Sound(Step(s, script), script)
  {
    RectExact(s, script);
    if s.pc.active {
      SentRectSound(s, script, SendRect(s.m, script, s.pc.held));
    } else {
      hide Exact, OnScreen, Heard, Origins, Current, QueueIsTail;
    }
  }

  lemma BytesPrefix(rects: seq<Rect>, n: nat)
    requires n <= |rects|
    ensures Bytes(rects[..n]) <= Bytes(rects)
    decreases |rects| - n
  {
    if n < |rects| {
      BytesStep(rects, n);
      BytesPrefix(rects, n + 1);
    } else {
      assert rects[..n] == rects;
    }
  }

  lemma ReceiverInStep(s: Split, script: Script)
    requires Sound(s, script) && s.pc.Begun? && AllRepresentable(s.m.hist)
    requires s.m.wire.open && !s.m.needFull
    ensures var m, a := s.m, Heard(s.m.log);
            && m.hist != [] && 0 <= Left(m) <= |Last(m.hist).rects|
            && a.state == InFrame && a.begin == BeginOf(Last(m.hist))
            && a.rectCount == m.wire.rects == Left(m)
            && a.byteCount == m.wire.bytes == Bytes(Last(m.hist).rects[..Left(m)])
  {
    hide Heard, Origins, Bytes, Faithful, Settled, SlotOf, HistIds, FrameOnScreen, OnScreen, Geometry;
    var a := Heard(s.m.log);
    assert Matched(s, a) && Rested(s, a, Origins(s.m.log));
    assert WireIsCurrent(s) && InStep(s, a);
  }

  /** While the receiver is in step, the next rectangle is one it accepts. */
  lemma NextRectFits(s: Split, script: Script)
    requires Sound(s, script) && s.pc.Begun? && AllRepresentable(s.m.hist)
    requires s.m.wire.open && !s.m.needFull
    ensures var m, a := s.m, Heard(s.m.log);
            && m.hist != [] && 0 <= Left(m) < |Last(m.hist).rects|
            && var r := Last(m.hist).rects[Left(m)];
               && a.state == InFrame && Fits(r, a.begin.width, a.begin.height)
               && a.rectCount == m.wire.rects < MAX_FRAME_RECTS && a.byteCount == m.wire.bytes
               && a.byteCount + |r.pixels| <= MAX_FRAME_BYTES
  {
    hide Heard, Origins, Bytes, Linked, SlotOf, HistIds, Faithful, Settled;
    var m := s.m;
    HeldIsNext(s);
    ReceiverInStep(s, script);
    var f := Last(m.hist);
    assert FrameOnScreen(f) && Representable(f) && Geometry(m);
    hide Heard, Origins, Bytes, Exact, Linked;
    assert Fits(f.rects[Left(m)], f.width, f.height);
    BytesStep(f.rects, Left(m));
    BytesPrefix(f.rects, Left(m) + 1);
  }

  lemma SentRectSound(s: Split, script: Script, m': Sender)
    requires Sound(s, script) && Honest(script) && s.pc.Begun? && s.pc.active
    requires m' == SendRect(s.m, script, s.pc.held) && Exact(Split(m', Streamed))
    ensures Sound(Split(m', Streamed), script)
  {
    var m, held, s' := s.m, s.pc.held, Split(m', Streamed);
    HeldIsNext(s);
    HonestRect(m, script, held, Last(m.hist).rects[Left(m)]);
    SendRectEffect(m, script, held);
    assert Inv(s) && Inv(s');
    hide SendRect, Heard, Origins, Fits;
    if AllRepresentable(m.hist) {
      if m.wire.open && !m.needFull {
        NextRectFits(s, script);
      }
      hide Exact, OnScreen, Inv;
      CarriesLinked(s, s', script);
    }
  }

  lemma EndSound(s: Split, script: Script)
    requires Sound(s, script) && Honest(script) && s.pc.Ending?
    ensures Sound(Step(s, script), script)
  {
    hide Heard, Origins, Exact, OnScreen, Bytes, SlotOf, HistIds, Linked, Fate, CountFrame;
    assert Inv(s) by { ExactIsInv(s); }
    var m, c, k, s' := s.m, s.pc.closing, s.pc.frame, Step(s, script);
    EndExact(s, script);
    assert Inv(s') by { ExactIsInv(s'); }
    HonestEnd(m, script, c, k);
    assert s'.m == m.(log := s'.m.log, needFull := s'.m.needFull, stats := s'.m.stats);
    if AllRepresentable(m.hist) {
      assert Representable(m.hist[k]);
      EndLinked(s, s', script);
    }
  }

  lemma EndLinked(s: Split, s': Split, script: Script)
    requires Exact(s) && Linked(s, script) && s.pc.Ending? && Inv(s') && s'.pc.Outside?
    requires Representable(s.m.hist[s.pc.frame])
    requires s'.m == s.m.(log := s'.m.log, needFull := s'.m.needFull, stats := s'.m.stats)
    requires s'.m.needFull <==> s.m.needFull || !script(|s.m.log|).Ok()
    requires var a, a' := Heard(s.m.log), Heard(s'.m.log);
             if script(|s.m.log|).Ok() && Commits(a, s.pc.closing)
             then a'.hasBase && Origins(s'.m.log) == Origins(s.m.log) + [s.pc.frame]
             else a'.hasBase == a.hasBase && Origins(s'.m.log) == Origins(s.m.log)
    ensures Linked(s', script)
  {
    hide Heard, Origins, Bytes, SlotOf, HistIds, Faithful, WireIsCurrent;
    var m, c, k := s.m, s.pc.closing, s.pc.frame;
    var a, a', org, org' := Heard(m.log), Heard(s'.m.log), Origins(m.log), Origins(s'.m.log);
    assert InStep(s, a) && Finishing(s, a, org, script) && Settled(s, org);
    assert c.CommitEnd? ==> m.hist[k].rects[..c.rects] == m.hist[k].rects;
    assert c.CommitEnd? && WillCommit(a, c, m.hist[k]) ==> Commits(a, c);
    assert Rested(s', a', org') && Chained(s', a', org');
    assert Unbroken(org', m.hist);
  }

  lemma CloseSound(s: Split, script: Script)
    requires Sound(s, script) && Deciding(s) && !Strands(s) && !Cuts(s)
    ensures Sound(AfterClosing(s.m, CloseOut(s.m)), script)
  {
    CloseExact(s);
    assert Inv(AfterClosing(s.m, CloseOut(s.m)));
    assert CloseOut(s.m).0.hist == s.m.hist;
    if AllRepresentable(s.m.hist) {
      hide Exact, OnScreen, Inv, Linked, CloseOut, AllRepresentable;
      CloseLinked(s, script);
    }
  }

  lemma CloseLinked(s: Split, script: Script)
    requires Inv(s) && Linked(s, script) && Deciding(s)
    requires Inv(AfterClosing(s.m, CloseOut(s.m)))
    ensures Linked(AfterClosing(s.m, CloseOut(s.m)), script)
  {
    hide Heard, Origins, Linked, Bytes, SlotOf, HistIds;
    var m := s.m;
    var (m', c) := CloseOut(m);
    var s' := AfterClosing(m, (m', c));
    if c == Nothing {
      assert Matched(s, Heard(m.log)) by { LinkedParts(s, script); }
      CarriesLinked(s, s', script);
    } else if c == Cleared {
      assert m' == m.(abortPending := None, building := false, endQueued := false);
      hide CloseOut;
      ClearedLinked(s, s', script);
    } else {
      assert m.wire.open && m.hist != [] && Last(m.hist).ftype == m.frameType == m.wire.ftype && InFlight(m);
      assert m' == m.(wire := m.wire.(open := false), endQueued := false, building := false, abortPending := None);
      assert c.rects == m.wire.rects && c.bytes == m.wire.bytes && (c.AbortEnd? ==> m.abortPending.Some?);
      hide CloseOut;
      DecidedLinked(s, s', script);
    }
  }

  lemma ClearedLinked(s: Split, s': Split, script: Script)
    requires Inv(s) && Linked(s, script) && !s.pc.Ending? && Inv(s') && s'.pc.Outside?
    requires s.m.abortPending.Some? && s'.m == s.m.(abortPending := None, building := false, endQueued := false)
    ensures Linked(s', script)
  {
    hide Heard, Origins, QueueIsTail, WireIsCurrent, PcOk, Current;
  }

  /** The end has been decided, not yet sent. */
  lemma DecidedLinked(s: Split, s': Split, script: Script)
    requires Inv(s) && Linked(s, script) && !s.pc.Ending? && Inv(s') && s'.pc.Ending? && s'.pc.frame == |s.m.hist| - 1
    requires s.m.wire.open && s.m.hist != [] && Last(s.m.hist).ftype == s.m.wire.ftype && InFlight(s.m)
    requires s'.m == s.m.(wire := s.m.wire.(open := false), endQueued := false, building := false, abortPending := None)
    requires var c := s'.pc.closing;
             c.Sends() && c.rects == s.m.wire.rects && c.bytes == s.m.wire.bytes && (c.AbortEnd? ==> s.m.abortPending.Some?)
    ensures Linked(s', script)
  {
    hide Heard, Origins, QueueIsTail, WireIsCurrent, Current, PcOk;
    var a, org := Heard(s.m.log), Origins(s.m.log);
    assert Finishing(s', a, org, script);
  }

  lemma PopSound(s: Split, script: Script)
    requires Sound(s, script) && (s.pc.Streamed? || s.pc.Looked? || (s.pc.Outside? && s.m.queue != []))
    ensures Sound(Step(s, script), script)
  {
    hide Heard, Origins, Exact, OnScreen, Bytes, HistIds, Linked;
    assert Inv(s) by { ExactIsInv(s); }
    var s' := Step(s, script);
    StepExact(s, script);
    assert Inv(s') by { ExactIsInv(s'); }
    assert s'.m == s.m.(queue := s'.m.queue, stats := s'.m.stats);
    if AllRepresentable(s.m.hist) {
      assert Matched(s, Heard(s.m.log)) by { LinkedParts(s, script); }
      CarriesLinked(s, s', script);
    }
  }

  lemma StepSound(s: Split, script: Script)
    requires Sound(s, script) && Honest(script) && Calm(s, Tick)
    ensures Sound(Step(s, script), script)
  {
    hide Exact, OnScreen, Linked;
    match s.pc
    case Outside => if s.m.queue == [] { CloseSound(s, script); } else { PopSound(s, script); }
    case Taken(_) => BeginSound(s, script);
    case Begun(_, _) => RectSound(s, script);
    case Popped => CloseSound(s, script);
    case Ending(_, _) => EndSound(s, script);
    case _ => PopSound(s, script);
  }

  lemma ActSound(s: Split, a: Action, script: Script)
    requires Sound(s, script) && Honest(script) && Legal(s, a) && Calm(s, a) && Quiet(s, a, script)
    ensures Sound(Act(s, a, script), script)
  {
    hide Exact, OnScreen, Linked;
    match a
    case Tick => StepSound(s, script);
    case Write(x, y, w, h, px) => WriteSound(s, x, y, w, h, px, script);
    case FlushFrame => FlushSound(s, script);
    case Drop => DropSound(s, script);
    case _ => SessionSound(s.m, a, script);
  }
}
