/** The sender's own books, read back from the log: which FRAME_BEGIN every FRAME_END closes, what went out in
    between, and the statistics. Holds for every sink behaviour. */
module Accounting {
  import opened Wire
  import opened SenderState
  import opened SplitPump

  // ---- an independent reading of the log ----

  /** The frame opened by the last accepted FRAME_BEGIN, until an end is sent, and the rectangles accepted since. */
  datatype OnWire = OnWire(frame: Option<nat>, ftype: FrameType, rects: seq<Rect>)

  function Read(w: OnWire, e: Entry): OnWire {
    match e
    case SessionReset => w
    case Sent(FrameBegin(_, t, _, _), o, k) => if o.Ok() then OnWire(Some(k), t, []) else w
    case Sent(FrameRect(r), o, _) => if o.Ok() then w.(rects := w.rects + [r]) else w
    case Sent(FrameEnd(_, _, _, _), _, _) => w.(frame := None)
  }

  function ReadAll(log: seq<Entry>): OnWire {
    if log == [] then OnWire(None, Full, []) else Read(ReadAll(log[..|log| - 1]), log[|log| - 1])
  }

  predicate IsEnd(e: Entry) { e.Sent? && e.msg.FrameEnd? }

  /** Counters a reader of the log would keep. */
  datatype Tally = Tally(full: nat, partial: nat, fullBytes: nat, partialBytes: nat, rects: nat,
                         lastId: u16, lastType: FrameType, lastRects: nat, lastBytes: u32)

  function Count(t: Tally, w: OnWire, e: Entry): Tally {
    if !e.Sent? || !e.outcome.Ok() then t
    else if e.msg.FrameRect? then t.(rects := t.rects + 1)
    else if e.msg.FrameEnd? && !e.msg.aborted then
      var t1 := t.(lastId := e.msg.endId, lastType := w.ftype, lastRects := |w.rects|, lastBytes := e.msg.byteCount);
      if w.ftype == Full then t1.(full := t.full + 1, fullBytes := t.fullBytes + e.msg.byteCount)
      else t1.(partial := t.partial + 1, partialBytes := t.partialBytes + e.msg.byteCount)
    else t
  }

  function CountAll(log: seq<Entry>): Tally {
    if log == [] then Tally(0, 0, 0, 0, 0, 0, Full, 0, 0)
    else Count(CountAll(log[..|log| - 1]), ReadAll(log[..|log| - 1]), log[|log| - 1])
  }

  lemma ReadOne(log: seq<Entry>, e: Entry)
    ensures ReadAll(log + [e]) == Read(ReadAll(log), e)
    ensures CountAll(log + [e]) == Count(CountAll(log), ReadAll(log), e)
  {
    assert (log + [e])[..|log|] == log;
  }

  // ---- what holds of every end in the log ----

  /** An end closes the last frame begun, once; unless aborted, exactly that frame's rectangles went out first. */
  ghost predicate EndIsExact(log: seq<Entry>, i: nat, hist: seq<Frame>)
    requires i < |log| && IsEnd(log[i])
  {
    var w, msg, k := ReadAll(log[..i]), log[i].msg, log[i].frame;
    && w.frame == Some(k) && k < |hist| && msg.endId == hist[k].id
    && (!msg.aborted ==>
          && w.rects == hist[k].rects != [] && w.ftype == hist[k].ftype && hist[k].flushed
          && msg.rectCount == |hist[k].rects| % 0x1_0000
          && msg.byteCount == Bytes(hist[k].rects) % 0x1_0000_0000)
  }

  ghost predicate EndsExact(log: seq<Entry>, hist: seq<Frame>) {
    forall i | 0 <= i < |log| && IsEnd(log[i]) :: EndIsExact(log, i, hist)
  }

  ghost predicate StatsAgree(s: Stats, t: Tally) {
    && s.framesFull == t.full && s.framesPartial == t.partial
    && s.fullPixelBytes == t.fullBytes && s.partialPixelBytes == t.partialBytes && s.rectsSent == t.rects
    && s.lastFrameId == t.lastId && s.lastFrameType == t.lastType
    && s.lastRectCount == t.lastRects && s.lastFrameBytes == t.lastBytes
  }

  ghost predicate WireRead(s: Split)
    requires Inv(s)
  {
    var m, w := s.m, ReadAll(s.m.log);
    && (m.wire.open ==>
          && w.frame == Some(|m.hist| - 1) && w.ftype == m.wire.ftype
          && (m.abortPending.None? ==> w.rects == Last(m.hist).rects[..SentCount(s)]))
    && (s.pc.Ending? ==>
          && w.frame == Some(s.pc.frame) && m.wire.id == s.pc.closing.id
          && (s.pc.closing.CommitEnd? ==>
                && w.rects == m.hist[s.pc.frame].rects && w.ftype == s.pc.closing.ftype
                && s.pc.closing.rects == |m.hist[s.pc.frame].rects|))
  }

  predicate IsWholeEnd(e: Entry) { IsEnd(e) && !e.msg.aborted }

  /** A frame with an end in the log, other than an aborted one, is finished. */
  ghost predicate EndedIsDone(s: Split) {
    && (forall i | 0 <= i < |s.m.log| && IsWholeEnd(s.m.log[i]) :: s.m.log[i].frame == |s.m.hist| - 1 ==> !Busy(s.m))
    && (s.pc.Ending? ==> forall i | 0 <= i < |s.m.log| && IsWholeEnd(s.m.log[i]) :: s.m.log[i].frame < s.pc.frame)
  }

  ghost predicate Books(s: Split) {
    Inv(s) && EndsExact(s.m.log, s.m.hist) && EndedIsDone(s) && WireRead(s) && StatsAgree(s.m.stats, CountAll(s.m.log))
  }

  lemma BlankBooks(queueSlots: nat, slotBytes: nat)
    ensures Books(Split(Blank(queueSlots, slotBytes), Outside))
  {
    BlankInv(queueSlots, slotBytes);
  }

  lemma IdsStay(s: Split, s': Split)
    requires Inv(s) && Inv(s') && |s.m.hist| <= |s'.m.hist|
    ensures forall k | 0 <= k < |s.m.hist| :: s'.m.hist[k].id == s.m.hist[k].id
  {
  }

  /** The log stands still and only an unfinished last frame changes. */
  lemma BooksKept(s: Split, s': Split)
    requires Books(s) && Inv(s') && s'.m.log == s.m.log && s'.pc == s.pc && |s.m.hist| <= |s'.m.hist|
    requires forall k | 0 <= k < |s.m.hist| - 1 :: s'.m.hist[k] == s.m.hist[k]
    requires s.m.hist != [] && s'.m.hist[|s.m.hist| - 1] != s.m.hist[|s.m.hist| - 1] ==> Busy(s.m)
    requires |s'.m.hist| == |s.m.hist| ==> (Busy(s'.m) ==> Busy(s.m))
    requires StatsAgree(s'.m.stats, CountAll(s.m.log))
    requires s'.m.wire.id == s.m.wire.id && s'.m.wire.ftype == s.m.wire.ftype
    requires s'.m.wire.open ==>
               && s.m.wire.open && |s'.m.hist| == |s.m.hist|
               && (s'.m.abortPending.None? ==>
                     && s.m.abortPending.None?
                     && Last(s'.m.hist).rects[..SentCount(s')] == Last(s.m.hist).rects[..SentCount(s)])
    requires s.pc.Ending? ==> s'.m.hist[s.pc.frame].rects == s.m.hist[s.pc.frame].rects
    ensures Books(s')
  {
    var m, m' := s.m, s'.m;
    hide Inv, ReadAll, CountAll, StatsAgree;
    IdsStay(s, s');
    forall i | 0 <= i < |m'.log| && IsEnd(m'.log[i]) ensures EndIsExact(m'.log, i, m'.hist) {
      assert EndIsExact(m.log, i, m.hist);
    }
  }

  // ---- UI and session calls ----

  lemma EnqueueBooks(s: Split, r: Rect)
    requires Books(s) && s.m.building && |s.m.queue| < s.m.slots
    ensures Books(Split(Enqueue(s.m, r), s.pc))
  {
    var m, m' := s.m, Enqueue(s.m, r);
    EnqueueKeeps(m, r, s.pc);
    var rs, rs' := Last(m.hist).rects, Last(m'.hist).rects;
    assert rs' == rs + [r];
    if m.wire.open {
      assert rs'[..SentCount(s)] == rs[..SentCount(s)];
    }
    BooksKept(s, Split(m', s.pc));
  }

  lemma StartBooks(s: Split, r: Rect)
    requires Books(s) && !s.m.building && !s.m.endQueued && s.m.queue == [] && s.m.abortPending.None?
    ensures Books(Split(Enqueue(StartFrame(s.m), r), s.pc))
  {
    var m, m' := s.m, Enqueue(StartFrame(s.m), r);
    StartFrameKeeps(m, r, s.pc);
    assert m'.hist[..|m.hist|] == m.hist && |m'.hist| == |m.hist| + 1;
    assert !m.wire.open;
    BooksKept(s, Split(m', s.pc));
  }

  lemma WriteBooks(s: Split, x: int, y: int, w: int, h: int, px: Option<seq<byte>>)
    requires Books(s) && Readable(w, h, px)
    ensures Books(Split(WriteRect(s.m, x, y, w, h, px).1, s.pc))
  {
    var (status, m') := WriteRect(s.m, x, y, w, h, px);
    WriteCases(s.m, x, y, w, h, px);
    if status != Ok {
      RefusalKeepsSent(s.m, x, y, w, h, px);
      SameButStats(s.m, m', s.pc);
      BooksKept(s, Split(m', s.pc));
    } else {
      hide WriteRect;
      if s.m.building {
        EnqueueBooks(s, RectOf(x, y, w, h, px));
      } else {
        StartBooks(s, RectOf(x, y, w, h, px));
      }
    }
  }

  lemma RefusalKeepsSent(m: Sender, x: int, y: int, w: int, h: int, px: Option<seq<byte>>)
    requires Readable(w, h, px) && WriteRect(m, x, y, w, h, px).0 != Ok
    ensures var t := WriteRect(m, x, y, w, h, px).1.stats;
            t == m.stats.(queueFullEvents := t.queueFullEvents, rectsDropped := t.rectsDropped)
  {
  }

  lemma FlushBooks(s: Split)
    requires Books(s)
    ensures Books(Split(Flush(s.m), s.pc))
  {
    FlushKeeps(s.m, s.pc);
    BooksKept(s, Split(Flush(s.m), s.pc));
  }

  lemma DropBooks(s: Split)
    requires Books(s)
    ensures Books(Split(DropPendingFrame(s.m), s.pc))
  {
    DropKeeps(s.m, s.pc);
    BooksKept(s, Split(DropPendingFrame(s.m), s.pc));
  }

  lemma ResetBooks(s: Split, m': Sender)
    requires Books(s) && s.pc.Outside? && m' == s.m.(log := s.m.log + [SessionReset])
    ensures Books(Split(m', Outside))
  {
    SameQueue(s.m, m');
    ReadOne(s.m.log, SessionReset);
    hide Inv, ReadAll, CountAll, StatsAgree;
    EndsAppend(s.m.log, SessionReset, s.m.hist);
  }

  lemma EndsAppend(log: seq<Entry>, e: Entry, hist: seq<Frame>)
    requires EndsExact(log, hist)
    requires IsEnd(e) ==> EndIsExact(log + [e], |log|, hist)
    ensures EndsExact(log + [e], hist)
  {
    var log' := log + [e];
    forall i | 0 <= i < |log'| && IsEnd(log'[i]) ensures EndIsExact(log', i, hist) {
      if i < |log| {
        assert EndIsExact(log, i, hist) && log'[..i] == log[..i];
      }
    }
  }

  lemma ClearBooks(m: Sender)
    requires Books(Split(m, Outside))
    ensures Books(Split(ClearFrame(m), Outside))
  {
    ClearKeeps(m);
    BooksKept(Split(m, Outside), Split(ClearFrame(m), Outside));
  }

  /** Session fields and the drop counter move; the books do not depend on them. */
  lemma QuietBooks(m: Sender, m': Sender)
    requires Books(Split(m, Outside))
    requires m' == m.(width := m'.width, height := m'.height, enabled := m'.enabled, connected := m'.connected,
                      needFull := m'.needFull, stats := m.stats.(framesDropped := m'.stats.framesDropped))
    requires m'.width <= MAX_SIDE && m'.height <= MAX_SIDE
    ensures Books(Split(m', Outside))
  {
    SameQueue(m, m');
    BooksKept(Split(m, Outside), Split(m', Outside));
  }

  lemma BooksSize(m: Sender)
    requires Books(Split(m, Outside))
    ensures m.width <= MAX_SIDE && m.height <= MAX_SIDE
  {
  }

  lemma DisconnectBooks(m: Sender)
    requires Books(Split(m, Outside)) && m.connected
    ensures Books(Split(OnDisconnected(m), Outside))
  {
    hide Books, ClearFrame, Busy, InFlight, MarkDropped;
    BooksSize(m);
    ClearEffect(m);
    ClearBooks(m);
    var m1 := ClearFrame(m);
    ResetBooks(Split(m1, Outside), m1.(log := m1.log + [SessionReset]));
    QuietBooks(m1.(log := m1.log + [SessionReset]), OnDisconnected(m));
  }

  lemma SessionBooks(m: Sender, a: Action, script: Script)
    requires Books(Split(m, Outside)) && Session(a)
    ensures Books(Act(Split(m, Outside), a, script))
  {
    hide Books, ClearFrame, Busy, InFlight, MarkDropped;
    BooksSize(m);
    ClearEffect(m);
    match a
    case Connect =>
      ResetBooks(Split(m, Outside), m.(log := m.log + [SessionReset]));
      QuietBooks(m.(log := m.log + [SessionReset]), OnConnected(m));
    case Enable(on) =>
      if on {
        QuietBooks(m, SetEnabled(m, on));
      } else {
        ClearBooks(m);
        QuietBooks(ClearFrame(m), SetEnabled(m, on));
      }
    case Disconnect =>
      if m.connected {
        DisconnectBooks(m);
      }
    case Configure(w, h, rgb) =>
      if Init(m, w, h, rgb).0 == Ok {
        ClearBooks(m);
        QuietBooks(ClearFrame(m), Init(m, w, h, rgb).1);
      }
  }

  // ---- pump steps ----

  lemma BeginBooks(s: Split, script: Script)
    requires Books(s) && s.pc.Taken?
    ensures Books(Step(s, script))
  {
    hide ReadAll, CountAll, StatsAgree, Bytes, HistIds, SlotOf, Fate, SendBegin;
    var m, held, s' := s.m, s.pc.held, Step(s, script);
    BeginKeeps(s, script);
    HeldIsNext(s);
    if held.isFirst {
      BeginEffect(m, script, held);
      BeginLogged(m, script, held);
      var msg := FrameBegin(held.id, held.ftype, m.width % 0x1_0000, m.height % 0x1_0000);
      var e := Sent(msg, Fate(msg, script(|m.log|)), Tag(m));
      ReadOne(m.log, e);
      EndsAppend(m.log, e, m.hist);
      CountNothing(m.log, e);
      assert Last(m.hist).rects[..0] == [];
      assert WireRead(s');
    }
  }

  lemma CountNothing(log: seq<Entry>, e: Entry)
    requires e.Sent? && e.msg.FrameBegin?
    ensures Count(CountAll(log), ReadAll(log), e) == CountAll(log)
  {
    hide CountAll, ReadAll;
  }

  lemma BeginLogged(m: Sender, script: Script, held: Held)
    ensures var msg := FrameBegin(held.id, held.ftype, m.width % 0x1_0000, m.height % 0x1_0000);
            var o := Fate(msg, script(|m.log|));
            SendBegin(m, script, held).0.log == m.log + [Sent(msg, o, Tag(m))] && SendBegin(m, script, held).1 == o.Ok()
  {
    hide Fate, Tag;
  }

  lemma RectBooks(s: Split, script: Script)
    requires Books(s) && s.pc.Begun?
    ensures Books(Step(s, script))
  {
    StepKeeps(s, script);
    HeldIsNext(s);
    if s.pc.active {
      SentRectBooks(s, script, SendRect(s.m, script, s.pc.held));
    }
  }

  lemma RectLogged(m: Sender, script: Script, held: Held, r: Rect)
    requires m.queue != [] && r == Rect(held.x, held.y, held.w, held.h, m.queue[0].rect.pixels)
    ensures var m', o := SendRect(m, script, held), Fate(FrameRect(r), script(|m.log|));
            && m'.log == m.log + [Sent(FrameRect(r), o, Tag(m))]
            && m'.stats == m.stats.(rectsSent := if o.Ok() then m.stats.rectsSent + 1 else m.stats.rectsSent,
                                    framesDropped := m'.stats.framesDropped)
            && (m'.wire.open && m'.abortPending.None? ==> o.Ok())
  {
    hide Fate, Tag;
  }

  lemma SentRectBooks(s: Split, script: Script, m': Sender)
    requires Books(s) && s.pc.Begun? && s.pc.active && m' == SendRect(s.m, script, s.pc.held)
    requires Inv(Split(m', Streamed))
    ensures Books(Split(m', Streamed))
  {
    hide SendRect, ReadAll, CountAll, Bytes, HistIds, EndIsExact, SlotOf, Fate;
    var m, held := s.m, s.pc.held;
    HeldIsNext(s);
    var rs := Last(m.hist).rects;
    var r := rs[Left(m)];
    var e := Sent(FrameRect(r), Fate(FrameRect(r), script(|m.log|)), Tag(m));
    assert WireRead(s);
    RectLogged(m, script, held, r);
    SendRectEffect(m, script, held);
    ReadOne(m.log, e);
    EndsAppend(m.log, e, m.hist);
    assert rs[..Left(m) + 1] == rs[..Left(m)] + [r];
    assert WireRead(Split(m', Streamed));
  }

  lemma EndLogged(m: Sender, script: Script, c: Closing, k: nat)
    requires c.Sends() && m.wire.id == c.id
    requires c.CommitEnd? ==> ReadAll(m.log).ftype == c.ftype && |ReadAll(m.log).rects| == c.rects
    requires StatsAgree(m.stats, CountAll(m.log))
    ensures var m', msg := SendEnd(m, script, c, k), EndMessage(c);
            && m'.log == m.log + [Sent(msg, Fate(msg, script(|m.log|)), k)]
            && StatsAgree(m'.stats, CountAll(m'.log))
  {
    hide ReadAll, CountAll;
    var msg := EndMessage(c);
    ReadOne(m.log, Sent(msg, Fate(msg, script(|m.log|)), k));
  }

  lemma EndBooks(s: Split, script: Script)
    requires Books(s) && s.pc.Ending?
    ensures Books(Step(s, script))
  {
    hide ReadAll, CountAll, Bytes, HistIds, StatsAgree, SlotOf, Fate, SendEnd, QueueIsTail, WireIsCurrent;
    var m, c, k, s' := s.m, s.pc.closing, s.pc.frame, Step(s, script);
    EndKeeps(s, script);
    EndEffect(m, script, c, k);
    if k == |m.hist| - 1 && c.CommitEnd? {
      EndingIsIdle(s);
    }
    var msg := EndMessage(c);
    var e := Sent(msg, Fate(msg, script(|m.log|)), k);
    EndLogged(m, script, c, k);
    assert (m.log + [e])[..|m.log|] == m.log;
    assert c.CommitEnd? ==> m.hist[k].rects[..c.rects] == m.hist[k].rects;
    assert EndIsExact(m.log + [e], |m.log|, m.hist);
    hide EndIsExact;
    EndsAppend(m.log, e, m.hist);
    assert EndedIsDone(s');
  }

  lemma CloseBooks(s: Split)
    requires Books(s) && Deciding(s) && !Strands(s) && !Cuts(s)
    ensures Books(AfterClosing(s.m, CloseOut(s.m)))
  {
    hide ReadAll, CountAll, Bytes, HistIds, StatsAgree, SlotOf;
    var m, s' := s.m, AfterClosing(s.m, CloseOut(s.m));
    CloseKeeps(s);
    assert s'.m.log == m.log && s'.m.hist == m.hist && s'.m.stats == m.stats && (Busy(s'.m) ==> Busy(m));
    if m.wire.open && m.queue == [] {
      assert Last(m.hist).rects[..m.rectCount] == Last(m.hist).rects;
    }
    assert WireRead(s');
  }

  lemma PopBooks(s: Split, script: Script)
    requires Books(s) && (s.pc.Streamed? || s.pc.Looked? || (s.pc.Outside? && s.m.queue != []))
    ensures Books(Step(s, script))
  {
    var m, s' := s.m, Step(s, script);
    StepKeeps(s, script);
    assert s'.m == m.(queue := s'.m.queue, stats := m.stats.(rectsDropped := s'.m.stats.rectsDropped));
    assert Busy(s'.m) ==> Busy(m);
    assert SentCount(s') == SentCount(s) || !m.wire.open || m.abortPending.Some?;
    hide ReadAll, CountAll, Bytes, HistIds, EndIsExact;
  }

  lemma StepBooks(s: Split, script: Script)
    requires Books(s) && Calm(s, Tick)
    ensures Books(Step(s, script))
  {
    match s.pc
    case Outside => if s.m.queue == [] { CloseBooks(s); } else { PopBooks(s, script); }
    case Taken(_) => BeginBooks(s, script);
    case Begun(_, _) => RectBooks(s, script);
    case Popped => CloseBooks(s);
    case Ending(_, _) => EndBooks(s, script);
    case _ => PopBooks(s, script);
  }

  /** Every step of every calm interleaving keeps the books. */
  lemma ActBooks(s: Split, a: Action, script: Script)
    requires Books(s) && Legal(s, a) && Calm(s, a)
    ensures Books(Act(s, a, script))
  {
    match a
    case Tick => StepBooks(s, script);
    case Write(x, y, w, h, px) => WriteBooks(s, x, y, w, h, px);
    case FlushFrame => FlushBooks(s);
    case Drop => DropBooks(s);
    case _ => SessionBooks(s.m, a, script);
  }
}
