/** pump split at its lock boundaries, with UI calls free to run in every gap.
    A send and the critical section that records its result form one step: no UI call reads the log. */
module SplitPump {
  import opened Wire
  import opened SenderState

  /** Where the TX task stands inside pump. */
  datatype Pc =
    | Outside
    | Looked                                 // phase 1 saw a non-empty queue
    | Taken(held: Held)                      // slot fields copied out, nothing sent yet
    | Begun(held: Held, active: bool)        // FRAME_BEGIN settled (or not needed)
    | Streamed                               // FRAME_RECT settled (or skipped), slot not yet freed
    | Popped                                 // slot freed and the queue was seen empty
    | Ending(closing: Closing, frame: nat)   // FRAME_END of hist[frame] decided, not yet sent

  datatype Split = Split(m: Sender, pc: Pc)

  datatype Action =
    | Tick
    | Write(x: int, y: int, w: int, h: int, px: Option<seq<byte>>)
    | FlushFrame | Drop
    | Enable(on: bool) | Connect | Disconnect | Configure(width: int, height: int, rgb565: bool)

  /** Session and configuration calls are kept out of the gaps; the code does not protect them there. */
  predicate Session(a: Action) { a.Enable? || a.Connect? || a.Disconnect? || a.Configure? }

  predicate Legal(s: Split, a: Action) {
    && (Session(a) ==> s.pc.Outside?)
    && (a.Write? ==> Readable(a.w, a.h, a.px))
  }

  predicate NeedsHead(pc: Pc) { pc.Looked? || pc.Taken? || pc.Begun? || pc.Streamed? }

  predicate HeadPresent(s: Split) { NeedsHead(s.pc) ==> s.m.queue != [] }

  /** All that taking a step asks for. */
  predicate Plain(s: Split) { HeadPresent(s) && (s.pc.Ending? ==> s.pc.closing.Sends()) }

  function Step(s: Split, script: Script): Split
    requires Plain(s)
  {
    var m := s.m;
    match s.pc
    case Outside =>
      if m.queue != [] then Split(m, Looked) else AfterClosing(m, CloseOut(m))
    case Looked =>
      if HeadAborted(m) then Split(DiscardHead(m), Outside) else Split(m, Taken(Hold(m.queue[0])))
    case Taken(held) =>
      if held.isFirst then
        var (m1, active) := SendBegin(m, script, held);
        Split(m1, Begun(held, active))
      else Split(m, Begun(held, true))
    case Begun(held, active) =>
      Split(if active then SendRect(m, script, held) else m, Streamed)
    case Streamed =>
      var m1 := Pop(m);
      Split(m1, if m1.queue == [] then Popped else Outside)
    case Popped => AfterClosing(m, CloseOut(m))
    case Ending(c, frame) => Split(SendEnd(m, script, c, frame), Outside)
  }

  function AfterClosing(m: Sender, r: (Sender, Closing)): Split {
    Split(r.0, if r.1.Sends() then Ending(r.1, Tag(m)) else Outside)
  }

  function Act(s: Split, a: Action, script: Script): Split
    requires Plain(s) && Legal(s, a)
  {
    var m := s.m;
    match a
    case Tick => Step(s, script)
    case Write(x, y, w, h, px) => Split(WriteRect(m, x, y, w, h, px).1, s.pc)
    case FlushFrame => Split(Flush(m), s.pc)
    case Drop => Split(DropPendingFrame(m), s.pc)
    case Enable(on) => Split(SetEnabled(m, on), s.pc)
    case Connect => Split(OnConnected(m), s.pc)
    case Disconnect => Split(OnDisconnected(m), s.pc)
    case Configure(w, h, rgb) => Split(Init(m, w, h, rgb).1, s.pc)
  }

  // ---- phase 3 frees the slot and decides the end in two critical sections ----

  /** The second one sends an end although writeRect has refilled the queue: that end leaves rectangles out. */
  predicate Cuts(s: Split) { s.pc.Popped? && s.m.queue != [] && CloseOut(s.m).1.CommitEnd? }

  /** ... or clears an abort although the first slot of the aborted frame is queued: that frame will be begun. */
  predicate Strands(s: Split) {
    s.pc.Popped? && s.m.queue != [] && s.m.queue[0].isFirst && CloseOut(s.m).1.Cleared?
  }

  predicate Tame(s: Split, a: Action) { a.Tick? ==> !Strands(s) }

  predicate Calm(s: Split, a: Action) { a.Tick? ==> !Strands(s) && !Cuts(s) }

  // ---- counting ----

  function Bytes(rects: seq<Rect>): nat {
    if rects == [] then 0 else Bytes(rects[..|rects| - 1]) + |rects[|rects| - 1].pixels|
  }

  lemma BytesStep(rects: seq<Rect>, n: nat)
    requires n < |rects|
    ensures Bytes(rects[..n + 1]) == Bytes(rects[..n]) + |rects[n].pixels|
  {
    assert rects[..n + 1][..n] == rects[..n];
  }

  lemma BytesOne(r: Rect)
    ensures Bytes([r]) == |r.pixels|
  {
    assert Bytes([r]) == Bytes([r][..0]) + |r.pixels|;
  }

  lemma BytesGrow(rects: seq<Rect>, r: Rect)
    ensures Bytes(rects + [r]) == Bytes(rects) + |r.pixels|
  {
    assert (rects + [r])[..|rects|] == rects;
  }

  /** Rectangles of the current frame that have left the queue. */
  function Left(m: Sender): int { m.rectCount - |m.queue| }

  /** ... and those already handed to the sink. */
  function SentCount(s: Split): int { Left(s.m) + if s.pc.Streamed? then 1 else 0 }

  // ---- what every step keeps ----

  ghost predicate Config(m: Sender) {
    m.slots >= 1 && m.width <= MAX_SIDE && m.height <= MAX_SIDE && |m.queue| <= m.slots
  }

  ghost predicate HistIds(hist: seq<Frame>) {
    forall k | 0 <= k < |hist| :: hist[k].id == (k + 1) % 0x1_0000
  }

  /** The UI-side fields describe the last frame of the history. */
  ghost predicate Current(m: Sender) {
    && HistIds(m.hist)
    && m.frameId == |m.hist| % 0x1_0000
    && (m.hist == [] ==> m.queue == [] && !InFlight(m) && !m.wire.open)
    && (m.hist != [] ==>
          && Last(m.hist).ftype == m.frameType
          && |Last(m.hist).rects| == m.rectCount >= 1
          && Bytes(Last(m.hist).rects) == m.byteCount)
    && !(m.building && m.endQueued)
    && (m.building ==> !Last(m.hist).flushed)
    && (m.endQueued ==> Last(m.hist).flushed)
    && (m.abortPending.Some? ==> m.abortPending.value == m.frameId)
  }

  ghost predicate SlotOf(m: Sender, i: int)
    requires 0 <= i < |m.queue|
    requires m.hist != [] && 0 <= Left(m) + i < |Last(m.hist).rects|
  {
    m.queue[i] == Slot(Left(m) + i == 0, m.frameType, m.frameId, Last(m.hist).rects[Left(m) + i])
  }

  /** The queue holds exactly the last rectangles accepted for the current frame, and its first one only while that
      frame is in flight. */
  ghost predicate QueueIsTail(m: Sender)
    requires Current(m)
  {
    && Left(m) >= 0
    && (forall i | 0 <= i < |m.queue| :: SlotOf(m, i))
    && (m.queue != [] && Left(m) == 0 ==> InFlight(m))
  }

  /** The wire frame is the current frame, still owed an end, and its counters are exact. */
  ghost predicate WireIsCurrent(s: Split)
    requires Current(s.m) && QueueIsTail(s.m)
  {
    var m := s.m;
    m.wire.open ==>
      && m.wire.id == m.frameId && m.wire.ftype == m.frameType && InFlight(m)
      && (Left(m) >= 1 || s.pc.Begun? || s.pc.Streamed?)
      && SentCount(s) <= m.rectCount
      && (m.abortPending.None? ==>
            m.wire.rects == SentCount(s) && m.wire.bytes == Bytes(Last(m.hist).rects[..SentCount(s)]))
  }

  /** An end that has been decided but not sent. */
  ghost predicate EndingOk(m: Sender, c: Closing, k: nat) {
    && c.Sends() && !m.wire.open
    && k < |m.hist| && c.id == m.hist[k].id
    && (k == |m.hist| - 1 ==>
          && !m.building && !m.endQueued && Left(m) >= 1 && (m.abortPending.Some? ==> m.queue != [])
          && (c.CommitEnd? ==> c.rects == Left(m)))
    && |m.hist| - 2 <= k
    && (k == |m.hist| - 2 ==> Left(m) == 0)
    && (c.CommitEnd? ==>
          && c.ftype == m.hist[k].ftype && m.hist[k].flushed
          && 1 <= c.rects <= |m.hist[k].rects|
          && c.bytes == Bytes(m.hist[k].rects[..c.rects]))
  }

  ghost predicate PcOk(s: Split) {
    var m := s.m;
    && HeadPresent(s)
    && (match s.pc
        case Taken(h) => h == Hold(m.queue[0]) && (h.isFirst ==> !m.wire.open)
        case Begun(h, active) => h == Hold(m.queue[0]) && (h.isFirst ==> active == m.wire.open) && (!active ==> h.isFirst)
        case Popped => m.hist != []
        case Ending(c, k) => EndingOk(m, c, k)
        case _ => true)
  }

  ghost predicate Inv(s: Split) {
    Config(s.m) && Current(s.m) && QueueIsTail(s.m) && WireIsCurrent(s) && PcOk(s)
  }

  lemma BlankInv(queueSlots: nat, slotBytes: nat)
    ensures Inv(Split(Blank(queueSlots, slotBytes), Outside))
  {
  }

  // ---- UI calls ----

  /** The frame a first writeRect opens. */
  function Opened(m: Sender, r: Rect): Frame {
    Frame((m.frameId + 1) % 0x1_0000, if m.needFull then Full else Partial, m.width, m.height, [r], false, false)
  }

  lemma StartEffect(m: Sender, r: Rect)
    requires m.queue == []
    ensures var m2, f := Enqueue(StartFrame(m), r), Opened(m, r);
            m2 == m.(frameId := f.id, building := true, frameType := f.ftype, needFull := false, rectCount := 1,
                     byteCount := |r.pixels|, queue := [Slot(true, f.ftype, f.id, r)], hist := m.hist + [f],
                     stats := m2.stats)
  {
    var m1 := StartFrame(m);
    assert Last(m1.hist).rects + [r] == [r];
    assert SetLast(m1.hist, Opened(m, r)) == m.hist + [Opened(m, r)];
  }

  lemma StartFrameKeeps(m: Sender, r: Rect, pc: Pc)
    requires Inv(Split(m, pc)) && !m.building && !m.endQueued && m.queue == [] && m.abortPending.None?
    ensures Inv(Split(Enqueue(StartFrame(m), r), pc))
  {
    hide Bytes, Enqueue, StartFrame;
    StartEffect(m, r);
    BytesOne(r);
    var m2 := Enqueue(StartFrame(m), r);
    assert !m.wire.open;
    assert QueueIsTail(m2) by {
      assert SlotOf(m2, 0);
    }
    assert PcOk(Split(m2, pc)) by {
      if pc.Ending? {
        assert m2.hist[pc.frame] == m.hist[pc.frame];
      }
    }
  }

  lemma EnqueueEffect(m: Sender, r: Rect)
    requires m.hist != []
    ensures var m2, f := Enqueue(m, r), Last(m.hist);
            && m2 == m.(queue := m.queue + [Slot(m.rectCount == 0, m.frameType, m.frameId, r)],
                        rectCount := m.rectCount + 1, byteCount := m.byteCount + |r.pixels|, stats := m2.stats,
                        hist := m2.hist)
            && |m2.hist| == |m.hist| && Last(m2.hist) == f.(rects := f.rects + [r])
            && forall k | 0 <= k < |m.hist| - 1 :: m2.hist[k] == m.hist[k]
  {
  }

  lemma EnqueueKeeps(m: Sender, r: Rect, pc: Pc)
    requires Inv(Split(m, pc)) && m.building && |m.queue| < m.slots
    ensures Inv(Split(Enqueue(m, r), pc))
  {
    hide Bytes, Enqueue;
    EnqueueEffect(m, r);
    var m2, rs := Enqueue(m, r), Last(m.hist).rects;
    BytesGrow(rs, r);
    assert (rs + [r])[..|rs|] == rs;
    assert HistIds(m2.hist);
    forall i | 0 <= i < |m2.queue| ensures SlotOf(m2, i) {
      if i < |m.queue| { assert SlotOf(m, i); }
    }
    if m.wire.open {
      assert (rs + [r])[..SentCount(Split(m, pc))] == rs[..SentCount(Split(m, pc))];
    }
  }

  function RectOf(x: int, y: int, w: int, h: int, px: Option<seq<byte>>): Rect
    requires w > 0 && h > 0 && px.Some? && Readable(w, h, px)
  {
    Rect(x % 0x1_0000, y % 0x1_0000, w % 0x1_0000, h % 0x1_0000, px.value[..w * h * 2])
  }

  lemma AcceptCases(m: Sender, r: Rect)
    requires Config(m) && Current(m)
    ensures var (status, m') := Accept(m, r);
            || (status != Ok && m' == m.(stats := m'.stats))
            || (status == Ok && m.building && |m.queue| < m.slots && m' == Enqueue(m, r))
            || (status == Ok && !m.building && !m.endQueued && m.queue == [] && m.abortPending.None?
                && m' == Enqueue(StartFrame(m), r))
  {
    hide Enqueue, HistIds, Bytes;
  }

  /** writeRect refuses (touching counters at most), adds to the open frame, or opens a new one. */
  lemma WriteCases(m: Sender, x: int, y: int, w: int, h: int, px: Option<seq<byte>>)
    requires Config(m) && Current(m) && Readable(w, h, px)
    ensures var (status, m') := WriteRect(m, x, y, w, h, px);
            || (status != Ok && m' == m.(stats := m'.stats))
            || (status == Ok && w > 0 && h > 0 && px.Some? && m.width >= 1 && m.height >= 1
                && ((m.building && |m.queue| < m.slots && m' == Enqueue(m, RectOf(x, y, w, h, px)))
                    || (!m.building && !m.endQueued && m.queue == [] && m.abortPending.None?
                        && m' == Enqueue(StartFrame(m), RectOf(x, y, w, h, px)))))
  {
    if w > 0 && h > 0 && px.Some? {
      AcceptCases(m, RectOf(x, y, w, h, px));
    }
    hide Accept;
  }

  /** The rectangle writeRect stages is the one it was given, lies on the screen and fits a slot. */
  lemma AcceptedRect(m: Sender, x: int, y: int, w: int, h: int, px: Option<seq<byte>>)
    requires Config(m) && Readable(w, h, px) && WriteRect(m, x, y, w, h, px).0 == Ok
    ensures m.enabled && m.connected && w > 0 && h > 0 && px.Some?
    ensures var r := RectOf(x, y, w, h, px);
            && r == Rect(x, y, w, h, px.value[..w * h * 2])
            && r.x + r.w <= m.width && r.y + r.h <= m.height && |r.pixels| == w * h * 2 <= m.slotBytes
  {
    hide Accept;
  }

  lemma WriteKeeps(m: Sender, x: int, y: int, w: int, h: int, px: Option<seq<byte>>, pc: Pc)
    requires Inv(Split(m, pc)) && Readable(w, h, px)
    ensures Inv(Split(WriteRect(m, x, y, w, h, px).1, pc))
  {
    var (status, m') := WriteRect(m, x, y, w, h, px);
    WriteCases(m, x, y, w, h, px);
    hide WriteRect;
    if status != Ok {
      SameButStats(m, m', pc);
    } else if m.building {
      EnqueueKeeps(m, RectOf(x, y, w, h, px), pc);
    } else {
      StartFrameKeeps(m, RectOf(x, y, w, h, px), pc);
    }
  }

  lemma SameButStats(m: Sender, m': Sender, pc: Pc)
    requires Inv(Split(m, pc)) && m' == m.(stats := m'.stats)
    ensures Inv(Split(m', pc))
  {
    forall i | 0 <= i < |m'.queue| ensures SlotOf(m', i) {
      assert SlotOf(m, i);
    }
  }

  lemma FlushKeeps(m: Sender, pc: Pc)
    requires Inv(Split(m, pc))
    ensures Inv(Split(Flush(m), pc))
  {
    var m' := Flush(m);
    forall i | 0 <= i < |m'.queue| ensures SlotOf(m', i) {
      assert SlotOf(m, i);
    }
  }

  lemma DropKeeps(m: Sender, pc: Pc)
    requires Inv(Split(m, pc))
    ensures Inv(Split(DropPendingFrame(m), pc))
  {
    hide Bytes, SlotOf;
    SlotsStay(m, DropPendingFrame(m));
  }

  lemma SessionKeeps(m: Sender, a: Action, script: Script)
    requires Inv(Split(m, Outside)) && Session(a)
    ensures Inv(Act(Split(m, Outside), a, script))
  {
    match a
    case Connect => SameQueue(m, OnConnected(m));
    case Enable(on) =>
      if on {
        SameQueue(m, SetEnabled(m, on));
      } else {
        ClearKeeps(m);
        SameQueue(ClearFrame(m), SetEnabled(m, on));
      }
    case Disconnect =>
      if m.connected {
        ClearKeeps(m);
        SameQueue(ClearFrame(m), OnDisconnected(m));
      }
    case Configure(w, h, rgb) =>
      if Init(m, w, h, rgb).0 == Ok {
        ClearKeeps(m);
        SameQueue(ClearFrame(m), Init(m, w, h, rgb).1);
      }
  }

  lemma ClearEffect(m: Sender)
    ensures var c := ClearFrame(m);
            && c == m.(queue := [], building := false, endQueued := false, abortPending := None,
                       wire := m.wire.(open := false), needFull := true, hist := c.hist)
            && !InFlight(c) && !Busy(c)
  {
  }

  lemma ClearKeeps(m: Sender)
    requires Inv(Split(m, Outside))
    ensures Inv(Split(ClearFrame(m), Outside))
  {
  }

  lemma SameQueue(m: Sender, m': Sender)
    requires Inv(Split(m, Outside))
    requires m' == m.(width := m'.width, height := m'.height, enabled := m'.enabled, connected := m'.connected,
                      needFull := m'.needFull, stats := m'.stats, log := m'.log)
    requires m'.width <= MAX_SIDE && m'.height <= MAX_SIDE
    ensures Inv(Split(m', Outside))
  {
    forall i | 0 <= i < |m'.queue| ensures SlotOf(m', i) {
      assert SlotOf(m, i);
    }
  }

  // ---- pump steps ----

  /** pump is about to decide whether a frame ends. */
  predicate Deciding(s: Split) { s.pc.Popped? || (s.pc.Outside? && s.m.queue == []) }

  lemma CloseKeeps(s: Split)
    requires Inv(s) && Deciding(s) && !Strands(s)
    ensures Inv(AfterClosing(s.m, CloseOut(s.m)))
  {
    hide Bytes, SlotOf, HistIds;
    if s.m.queue != [] {
      FirstIsLeft(s.m);
    }
    SlotsStay(s.m, CloseOut(s.m).0);
    if s.m.hist != [] {
      LastId(s.m);
    }
  }

  lemma LastId(m: Sender)
    requires Current(m) && m.hist != []
    ensures Last(m.hist).id == m.frameId
  {
  }

  /** The head of the queue is the first slot of its frame exactly if none of that frame has left. */
  lemma FirstIsLeft(m: Sender)
    requires Current(m) && QueueIsTail(m) && m.queue != []
    ensures m.queue[0].isFirst <==> Left(m) == 0
  {
    assert SlotOf(m, 0);
  }

  lemma SlotsStay(m: Sender, m': Sender)
    requires Current(m) && QueueIsTail(m) && m'.queue == m.queue && m'.rectCount == m.rectCount
    requires m'.frameType == m.frameType && m'.frameId == m.frameId
    requires |m'.hist| == |m.hist| && (m.hist != [] ==> Last(m'.hist).rects == Last(m.hist).rects)
    ensures forall i | 0 <= i < |m'.queue| :: SlotOf(m', i)
  {
    forall i | 0 <= i < |m'.queue| ensures SlotOf(m', i) {
      assert SlotOf(m, i);
    }
  }

  /** What a step strands: the first slot of a frame that nothing is in flight for. */
  lemma StrandsIff(s: Split)
    requires Inv(s) && s.pc.Popped?
    ensures var m := AfterClosing(s.m, CloseOut(s.m)).m;
            m.queue != [] && Left(m) == 0 && !InFlight(m) <==> Strands(s)
  {
    hide Bytes, SlotOf, HistIds;
    if s.m.queue != [] {
      FirstIsLeft(s.m);
    }
  }

  lemma PopKeeps(m: Sender, pc: Pc)
    requires Inv(Split(m, pc)) && m.queue != []
    requires pc.Streamed? || (pc.Looked? && HeadAborted(m))
    ensures Inv(Split(Pop(m), if Pop(m).queue == [] && pc.Streamed? then Popped else Outside))
  {
    var m' := Pop(m);
    assert SlotOf(m, 0);
    forall i | 0 <= i < |m'.queue| ensures SlotOf(m', i) {
      assert SlotOf(m, i + 1);
    }
  }

  /** The slot pump holds is still the head of the queue, and is the next rectangle of the current frame. */
  lemma HeldIsNext(s: Split)
    requires Inv(s) && (s.pc.Taken? || s.pc.Begun?)
    ensures var m, h := s.m, s.pc.held;
            && m.queue != [] && m.hist != [] && 0 <= Left(m) < |Last(m.hist).rects|
            && Rect(h.x, h.y, h.w, h.h, m.queue[0].rect.pixels) == Last(m.hist).rects[Left(m)]
            && h.bytes == |Last(m.hist).rects[Left(m)].pixels|
            && h.id == m.frameId == Last(m.hist).id && h.ftype == m.frameType == Last(m.hist).ftype
            && (h.isFirst <==> Left(m) == 0)
  {
    assert SlotOf(s.m, 0);
  }

  /** What the TX task does to the wire fields leaves the UI's frame alone; it may only request an abort. */
  lemma SameFrame(m: Sender, m': Sender)
    requires Config(m) && Current(m) && QueueIsTail(m)
    requires m' == m.(log := m'.log, stats := m'.stats, needFull := m'.needFull, abortPending := m'.abortPending,
                      wire := m'.wire)
    requires m'.abortPending == m.abortPending || m'.abortPending == Some(m.frameId)
    requires m.hist != []
    ensures Config(m') && Current(m') && QueueIsTail(m')
  {
    forall i | 0 <= i < |m'.queue| ensures SlotOf(m', i) {
      assert SlotOf(m, i);
    }
  }

  lemma BeginEffect(m: Sender, script: Script, held: Held)
    ensures var (m', active) := SendBegin(m, script, held);
            && m' == m.(log := m'.log, needFull := m'.needFull, wire := m'.wire)
            && m'.wire == (if active then WireFrame(true, held.id, held.ftype, 0, 0) else m.wire)
            && (m.needFull ==> m'.needFull)
  {
    hide Fate;
  }

  lemma BeginKeeps(s: Split, script: Script)
    requires Inv(s) && s.pc.Taken?
    ensures Inv(Step(s, script))
  {
    var m := s.m;
    assert SlotOf(m, 0);
    assert Last(m.hist).rects[..0] == [];
    if s.pc.held.isFirst {
      SameFrame(m, SendBegin(m, script, s.pc.held).0);
    }
  }

  lemma SendRectEffect(m: Sender, script: Script, held: Held)
    requires m.queue != []
    ensures var m' := SendRect(m, script, held);
            && m' == m.(log := m'.log, stats := m'.stats, needFull := m'.needFull, abortPending := m'.abortPending,
                        wire := m.wire.(rects := m'.wire.rects, bytes := m'.wire.bytes))
            && (m'.abortPending == m.abortPending || (m.wire.open && m'.abortPending == Some(m.wire.id)))
            && (m.wire.open && m'.abortPending.None? ==>
                  && m'.wire.rects == m.wire.rects + 1
                  && m'.wire.bytes == m.wire.bytes + held.bytes)
            && (m.needFull ==> m'.needFull)
  {
  }

  lemma RectKeeps(s: Split, script: Script)
    requires Inv(s) && s.pc.Begun?
    ensures Inv(Step(s, script))
  {
    var m := s.m;
    assert SlotOf(m, 0);
    BytesStep(Last(m.hist).rects, Left(m));
    if s.pc.active {
      var m' := SendRect(m, script, s.pc.held);
      SendRectEffect(m, script, s.pc.held);
      SameFrame(m, m');
      StreamedOk(s, m');
    } else {
      StreamedOk(s, m);
    }
  }

  lemma StreamedOk(s: Split, m': Sender)
    requires Inv(s) && s.pc.Begun?
    requires Current(m') && QueueIsTail(m') && Config(m')
    requires m'.queue == s.m.queue && m'.hist == s.m.hist && m'.rectCount == s.m.rectCount
    requires m'.wire.open == s.m.wire.open && m'.wire.id == s.m.wire.id && m'.wire.ftype == s.m.wire.ftype
    requires m'.frameId == s.m.frameId && m'.frameType == s.m.frameType && (InFlight(s.m) ==> InFlight(m'))
    requires m'.wire.open && m'.abortPending.None? ==>
               && s.m.abortPending.None?
               && m'.wire.rects == s.m.wire.rects + 1
               && m'.wire.bytes == s.m.wire.bytes + |Last(s.m.hist).rects[Left(s.m)].pixels|
    ensures Inv(Split(m', Streamed))
  {
    BytesStep(Last(s.m.hist).rects, Left(s.m));
  }

  lemma TakeKeeps(s: Split, script: Script)
    requires Inv(s) && s.pc.Looked?
    ensures Inv(Step(s, script))
  {
    var m := s.m;
    if HeadAborted(m) {
      var m1 := m.(stats := m.stats.(rectsDropped := m.stats.rectsDropped + 1));
      SameButStats(m, m1, Looked);
      PopKeeps(m1, Looked);
    } else {
      assert SlotOf(m, 0);
    }
  }

  lemma EndingIsIdle(s: Split)
    requires Inv(s) && s.pc.Ending? && s.pc.frame == |s.m.hist| - 1
    requires s.pc.closing.CommitEnd? && s.pc.closing.rects == |Last(s.m.hist).rects|
    ensures !Busy(s.m)
  {
    hide Bytes, SlotOf, HistIds;
  }

  lemma EndEffect(m: Sender, script: Script, c: Closing, k: nat)
    requires c.Sends()
    ensures var m' := SendEnd(m, script, c, k);
            m' == m.(log := m'.log, needFull := m'.needFull, stats := m'.stats) && (m.needFull ==> m'.needFull)
  {
    hide Fate, CountFrame, EndMessage;
  }

  lemma EndKeeps(s: Split, script: Script)
    requires Inv(s) && s.pc.Ending?
    ensures Inv(Step(s, script))
  {
    hide Bytes, SlotOf, Fate, CountFrame;
    SameFrame(s.m, SendEnd(s.m, script, s.pc.closing, s.pc.frame));
  }

  lemma StepKeeps(s: Split, script: Script)
    requires Inv(s) && Tame(s, Tick)
    ensures Inv(Step(s, script))
  {
    match s.pc
    case Outside => if s.m.queue == [] { CloseKeeps(s); }
    case Looked => TakeKeeps(s, script);
    case Taken(_) => BeginKeeps(s, script);
    case Begun(_, _) => RectKeeps(s, script);
    case Streamed => PopKeeps(s.m, Streamed);
    case Popped => CloseKeeps(s);
    case Ending(_, _) => EndKeeps(s, script);
  }

  lemma ActKeeps(s: Split, a: Action, script: Script)
    requires Inv(s) && Legal(s, a) && Tame(s, a)
    ensures Inv(Act(s, a, script))
  {
    match a
    case Tick => StepKeeps(s, script);
    case Write(x, y, w, h, px) => WriteKeeps(s.m, x, y, w, h, px, s.pc);
    case FlushFrame => FlushKeeps(s.m, s.pc);
    case Drop => DropKeeps(s.m, s.pc);
    case _ => SessionKeeps(s.m, a, script);
  }
}
