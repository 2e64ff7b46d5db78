/** What writeRect answers, and what the counters count: how many rectangles a frame can stage, when there is room
    again, and which calls make a sender start over with a FULL frame. */
module Answers {
  import opened Wire
  import opened SenderState
  import opened SplitPump
  import opened Runs
  import Progress
  import Delivery

  /** The arguments of a writeRect. */
  datatype Ask = Ask(x: u16, y: u16, w: u16, h: u16, px: seq<byte>)

  /** Nothing wrong with the call itself. */
  predicate Valid(m: Sender, c: Ask) {
    && m.enabled && m.connected && c.w >= 1 && c.h >= 1 && c.x + c.w <= m.width && c.y + c.h <= m.height
    && c.w * c.h * 2 <= m.slotBytes && c.w * c.h * 2 <= |c.px|
  }

  predicate AllValid(m: Sender, asks: seq<Ask>) { forall i | 0 <= i < |asks| :: Valid(m, asks[i]) }

  function Min(a: int, b: int): int { if a <= b then a else b }

  /** The rectangle it asks to show: the pixels it needs of those it was given. */
  function Asked(c: Ask): Rect
  {
    Rect(c.x, c.y, c.w, c.h, c.px[..Min(c.w * c.h * 2, |c.px|)])
  }

  function Write1(m: Sender, c: Ask): (Status, Sender)
    requires Valid(m, c)
  {
    WriteRect(m, c.x, c.y, c.w, c.h, Some(c.px))
  }

  lemma Unfolds(m: Sender, c: Ask)
    requires Valid(m, c)
    ensures Write1(m, c) == Accept(m, Asked(c))
  {
    hide Accept;
  }

  // ---- the answer in every state ----

  /** A slot is free for the frame being built, or no frame stands in the way of a new one. */
  predicate Free(m: Sender) { if m.building then |m.queue| < m.slots else !m.endQueued && m.queue == [] }

  /** The state decides, for a valid call, in any state the steps of pump and of the UI can leave behind. */
  lemma AnswerIff(s: Split, c: Ask)
    requires Inv(s) && Valid(s.m, c)
    ensures var m, answer := s.m, Write1(s.m, c).0;
            && (answer == FrameAborted <==> m.abortPending.Some?)
            && (answer == Ok <==> m.abortPending.None? && Free(m))
            && (answer == QueueFull <==> m.abortPending.None? && m.building && |m.queue| == m.slots)
            && (answer == FrameBusy <==> m.abortPending.None? && !m.building && (m.endQueued || m.queue != []))
  {
    hide Bytes, HistIds, QueueIsTail, WireIsCurrent, Enqueue;
    Unfolds(s.m, c);
  }

  /** The call's own faults, in the order in which they are found; none of them leaves a trace. */
  lemma RefusedIff(m: Sender, x: int, y: int, w: int, h: int, px: Option<seq<byte>>)
    requires Readable(w, h, px)
    ensures var (answer, m') := WriteRect(m, x, y, w, h, px);
            var ready := m.enabled && m.connected;
            var inside := m.width > 0 && m.height > 0 && 0 <= x && 0 <= y && 1 <= w && 1 <= h
                          && x + w <= m.width && y + h <= m.height;
            && (answer == NotEnabled <==> !m.enabled)
            && (answer == NotConnected <==> m.enabled && !m.connected)
            && (answer == InvalidParam <==> ready && (!inside || (w * h * 2 <= m.slotBytes && px.None?)))
            && (answer == RectTooLarge <==> ready && inside && w * h * 2 > m.slotBytes)
            && (answer in {NotEnabled, NotConnected, InvalidParam, RectTooLarge} ==> m' == m)
  {
    if w > 0 && h > 0 && px.Some? {
      OwnAnswers(m, RectOf(x, y, w, h, px));
    }
    hide Accept;
  }

  lemma OwnAnswers(m: Sender, r: Rect)
    ensures Accept(m, r).0 in {FrameAborted, FrameBusy, QueueFull, Ok}
  {
    hide Enqueue, StartFrame;
  }

  lemma InitIff(m: Sender, width: int, height: int, rgb565: bool)
    ensures var (answer, m') := Init(m, width, height, rgb565);
            var sized := 1 <= width <= 4096 && 1 <= height <= 4096;
            && (answer == Ok <==> sized && rgb565) && (answer == NotSupported <==> sized && !rgb565)
            && (answer == InvalidParam <==> !sized) && (answer != Ok ==> m' == m)
            && (answer == Ok ==> m'.width == width && m'.height == height && !Busy(m') && m'.needFull)
  {
    hide ClearFrame;
    ClearEffect(m);
  }

  // ---- capacity ----

  /** A frame is open, or the next writeRect opens one. */
  predicate Open(m: Sender) {
    && m.abortPending.None? && (m.building || (!m.endQueued && m.queue == []))
    && |m.queue| <= m.slots && 1 <= m.slots && (m.building ==> m.hist != [])
  }

  function WriteAll(m: Sender, asks: seq<Ask>): (seq<Status>, Sender)
    requires AllValid(m, asks)
    decreases |asks|
  {
    if asks == [] then ([], m)
    else
      var (answer, m1) := Write1(m, asks[0]);
      ValidStays(m, asks);
      var (answers, m2) := WriteAll(m1, asks[1..]);
      ([answer] + answers, m2)
  }

  lemma ConfigStays(m: Sender, c: Ask)
    requires Valid(m, c)
    ensures Progress.SameConfig(m, Write1(m, c).1)
  {
    Unfolds(m, c);
  }

  lemma ValidStays(m: Sender, asks: seq<Ask>)
    requires asks != [] && AllValid(m, asks)
    ensures Valid(m, asks[0]) && AllValid(Write1(m, asks[0]).1, asks[1..])
  {
    ConfigStays(m, asks[0]);
    forall i | 0 <= i < |asks[1..]| ensures Valid(Write1(m, asks[0]).1, asks[1..][i]) {
      assert Valid(m, asks[i + 1]);
    }
  }

  function Room(m: Sender): int { m.slots - |m.queue| }

  /** A rectangle is taken while a slot is free. */
  lemma Takes(m: Sender, c: Ask)
    requires Open(m) && Valid(m, c) && Room(m) > 0
    ensures var (answer, m') := Write1(m, c);
            && answer == Ok && Open(m') && m'.slots == m.slots && m'.building && m'.queue == m.queue + [m'.queue[|m.queue|]]
            && m'.queue[|m.queue|].rect == Asked(c)
            && m'.queue[|m.queue|].id == m'.frameId && m'.queue[|m.queue|].ftype == m'.frameType
            && m'.frameId == (if m.building then m.frameId else (m.frameId + 1) % 0x1_0000)
            && m'.rectCount == (if m.building then m.rectCount + 1 else 1)
            && (m'.queue[|m.queue|].isFirst <==> (m.building ==> m.rectCount == 0))
            && m'.frameType == (if m.building then m.frameType else if m.needFull then Full else Partial)
            && m'.stats.queueFullEvents == m.stats.queueFullEvents
  {
    Unfolds(m, c);
    if m.building {
      EnqueueEffect(m, Asked(c));
    } else {
      StartEffect(m, Asked(c));
    }
  }

  /** With every slot in use a rectangle is refused; nothing but the counter of refusals changes. */
  lemma {:induction false} FullRefuses(m: Sender, asks: seq<Ask>)
    requires Open(m) && Room(m) == 0 && AllValid(m, asks)
    ensures var (answers, m') := WriteAll(m, asks);
            && |answers| == |asks| && (forall i | 0 <= i < |answers| :: answers[i] == QueueFull)
            && m' == m.(stats := m.stats.(queueFullEvents := m.stats.queueFullEvents + |asks|))
    decreases |asks|
  {
    if asks != [] {
      Unfolds(m, asks[0]);
      var m1 := m.(stats := m.stats.(queueFullEvents := m.stats.queueFullEvents + 1));
      assert Write1(m, asks[0]) == (QueueFull, m1);
      hide Write1, Valid, Asked;
      ValidStays(m, asks);
      FullRefuses(m1, asks[1..]);
    }
  }

  /** The slots that n accepted rectangles fill: in order, of one frame, its first one marked. */
  predicate Staged(m: Sender, m': Sender, asks: seq<Ask>, n: int)
    requires 0 <= n <= |asks|
  {
    && |m'.queue| == |m.queue| + n && m.queue <= m'.queue
    && forall i | 0 <= i < n ::
         m'.queue[|m.queue| + i] ==
         Slot(i == 0 && (m.building ==> m.rectCount == 0), m'.frameType, m'.frameId, Asked(asks[i]))
  }

  /** What becomes of a run of writeRects. */
  predicate Filled(m: Sender, asks: seq<Ask>, answers: seq<Status>, m': Sender) {
    var k := Min(|asks|, Room(m));
    && k >= 0 && |answers| == |asks|
    && (forall i | 0 <= i < |answers| :: answers[i] == if i < k then Ok else QueueFull)
    && Staged(m, m', asks, k) && m'.stats.queueFullEvents == m.stats.queueFullEvents + |asks| - k
    && (k > 0 || m.building ==>
          && m'.building && m'.frameId == (if m.building then m.frameId else (m.frameId + 1) % 0x1_0000)
          && m'.frameType == (if m.building then m.frameType else if m.needFull then Full else Partial))
  }

  /** As many rectangles as there are free slots are accepted and staged in order, every later one is refused, and pump has
      to run before there is room again. The frame they go to is the open one, or else the next. */
  lemma {:induction false} FillsUp(m: Sender, asks: seq<Ask>)
    requires Open(m) && AllValid(m, asks)
    ensures var (answers, m') := WriteAll(m, asks); Filled(m, asks, answers, m')
    decreases |asks|
  {
    hide Write1, Valid, Asked;
    if asks == [] {
    } else if Room(m) == 0 {
      FullRefuses(m, asks);
    } else {
      ValidStays(m, asks);
      Takes(m, asks[0]);
      var m1 := Write1(m, asks[0]).1;
      FillsUp(m1, asks[1..]);
      FillsMore(m, m1, asks, WriteAll(m1, asks[1..]).0, WriteAll(m1, asks[1..]).1);
    }
  }

  lemma FillsMore(m: Sender, m1: Sender, asks: seq<Ask>, answers: seq<Status>, m': Sender)
    requires asks != [] && Room(m) > 0 && m1.building && m1.slots == m.slots
    requires |m1.queue| == |m.queue| + 1 && m.queue <= m1.queue
    requires m1.queue[|m.queue|] == Slot(m.building ==> m.rectCount == 0, m1.frameType, m1.frameId, Asked(asks[0]))
    requires m1.frameId == (if m.building then m.frameId else (m.frameId + 1) % 0x1_0000)
    requires m1.frameType == (if m.building then m.frameType else if m.needFull then Full else Partial)
    requires m1.rectCount > 0 && m1.stats.queueFullEvents == m.stats.queueFullEvents
    requires Filled(m1, asks[1..], answers, m')
    ensures Filled(m, asks, [Ok] + answers, m')
  {
    hide Asked;
    var k := Min(|asks|, Room(m));
    forall i | 0 <= i < k
      ensures m'.queue[|m.queue| + i] ==
              Slot(i == 0 && (m.building ==> m.rectCount == 0), m'.frameType, m'.frameId, Asked(asks[i]))
    {
      if i > 0 {
        assert asks[1..][i - 1] == asks[i];
        assert m'.queue[|m1.queue| + (i - 1)].rect == Asked(asks[1..][i - 1]);
      }
    }
  }

  // ---- room again ----

  /** pump refuses nothing and builds nothing. */
  predicate Aside(m: Sender, m': Sender) { m'.hist == m.hist && m'.stats.queueFullEvents == m.stats.queueFullEvents }

  lemma RectAside(m: Sender, script: Script, held: Held)
    requires m.queue != []
    ensures Aside(m, SendRect(m, script, held))
  {
    hide SendRect;
    RectLeaves(m, script, held);
    RectMoves(m, script, held);
  }

  lemma CloseAside(m: Sender, script: Script, k: nat)
    ensures Aside(m, Progress.Closed(m, script, k))
    ensures m.queue == [] && m.building && !m.endQueued && m.hist != [] && m.slots >= 1 ==>
              var m' := Progress.Closed(m, script, k); m'.queue == [] && m'.slots == m.slots && Open(m')
  {
    var (m1, c) := CloseOut(m);
    if c.Sends() {
      EndEffect(m1, script, c, k);
      EndAside(m1, script, c, k);
    }
    hide SendEnd;
  }

  lemma EndAside(m: Sender, script: Script, c: Closing, k: nat)
    requires c.Sends()
    ensures Aside(m, SendEnd(m, script, c, k))
  {
    hide SendEnd;
    EndEffect(m, script, c, k);
    EndMoves(m, script, c, k);
  }

  lemma OneSlotFree(m: Sender, script: Script)
    requires Open(m) && m.building && !m.endQueued && Room(m) == 0
    ensures var m1 := Pump(m, script).0;
            && Room(m1) == 1 && m1.slots == m.slots && Aside(m, m1) && (m1.abortPending.None? ==> Open(m1))
  {
    hide SendBegin, SendRect, SendEnd, CloseOut, Pump, Fate, Progress.Closed;
    Progress.SlotEffect(m, script);
    var held := Hold(m.queue[0]);
    BeginEffect(m, script, held);
    var (m1, active) := if held.isFirst then SendBegin(m, script, held) else (m, true);
    var m2 := if active then SendRect(m1, script, held) else m1;
    if active {
      RectAside(m1, script, held);
    }
    CloseAside(m2.(queue := []), script, Tag(m));
  }

  /** One pump of a full queue makes room for exactly one rectangle more, unless it has just given the frame up. */
  lemma RoomForOne(m: Sender, script: Script, more: seq<Ask>)
    requires Open(m) && m.building && !m.endQueued && Room(m) == 0 && AllValid(m, more)
    requires Pump(m, script).0.abortPending.None?
    ensures AllValid(Pump(m, script).0, more)
    ensures var (answers, m') := WriteAll(Pump(m, script).0, more);
            && |answers| == |more| && (forall i | 0 <= i < |answers| :: answers[i] == if i == 0 then Ok else QueueFull)
            && m'.stats.queueFullEvents == m.stats.queueFullEvents + (if more == [] then 0 else |more| - 1)
  {
    hide WriteAll, Valid, Staged, Pump;
    OneSlotFree(m, script);
    PumpConfig(m, script);
    forall i | 0 <= i < |more| ensures Valid(Pump(m, script).0, more[i]) {
      assert Valid(m, more[i]);
      SameValid(m, Pump(m, script).0, more[i]);
    }
    FillsUp(Pump(m, script).0, more);
  }

  lemma SameValid(m: Sender, m1: Sender, c: Ask)
    requires Valid(m, c) && Progress.SameConfig(m, m1)
    ensures Valid(m1, c)
  {
  }

  lemma PumpConfig(m: Sender, script: Script)
    requires m.queue != [] && !HeadAborted(m)
    ensures Progress.SameConfig(m, Pump(m, script).0)
  {
    hide SendBegin, SendRect, SendEnd, CloseOut, Pump, Progress.Closed;
    Progress.SlotEffect(m, script);
    var held := Hold(m.queue[0]);
    var (m1, active) := if held.isFirst then SendBegin(m, script, held) else (m, true);
    var m2 := if active then SendRect(m1, script, held) else m1;
    CloseConfig(m2.(queue := []), script, Tag(m));
  }

  lemma CloseConfig(m: Sender, script: Script, k: nat)
    ensures Progress.SameConfig(m, Progress.Closed(m, script, k))
  {
    var (m1, c) := CloseOut(m);
    if c.Sends() {
      EndEffect(m1, script, c, k);
    }
    hide SendEnd;
  }

  // ---- starting over ----

  /** A new connection, a change of the screen, and switching the display off and on free the sender from any state
      whatever: the next valid writeRect is accepted and opens a FULL frame of the screen as it then is. */
  lemma StartsOver(m: Sender, width: int, height: int, c: Ask)
    requires m.slots >= 1
    ensures m.connected ==> OpensFull(OnConnected(OnDisconnected(m)), c)
    ensures OpensFull(SetEnabled(SetEnabled(m, false), true), c)
    ensures 1 <= width <= MAX_SIDE && 1 <= height <= MAX_SIDE ==>
              var (answer, m1) := Init(m, width, height, true);
              answer == Ok && m1.width == width && m1.height == height && OpensFull(m1, c)
    ensures m.connected && m.enabled ==>
              && OnConnected(OnDisconnected(m)).connected && OnConnected(OnDisconnected(m)).enabled
              && SetEnabled(SetEnabled(m, false), true).enabled && SetEnabled(SetEnabled(m, false), true).connected
  {
    hide Write1, ClearFrame;
    ClearEffect(m);
    Opens(OnConnected(OnDisconnected(m)), c);
    Opens(SetEnabled(SetEnabled(m, false), true), c);
    Opens(Init(m, width, height, true).1, c);
  }

  predicate OpensFull(m: Sender, c: Ask) {
    Valid(m, c) ==>
      var (answer, m') := Write1(m, c);
      && answer == Ok && m'.queue == [Slot(true, Full, (m.frameId + 1) % 0x1_0000, Asked(c))]
      && m'.hist == m.hist + [Frame((m.frameId + 1) % 0x1_0000, Full, m.width, m.height, [Asked(c)], false, false)]
  }

  lemma Opens(m: Sender, c: Ask)
    requires m.slots >= 1
    ensures !Busy(m) && m.needFull ==> OpensFull(m, c)
  {
    if Valid(m, c) && !Busy(m) {
      Unfolds(m, c);
      StartEffect(m, Asked(c));
      hide Enqueue, StartFrame, Write1;
    }
  }

  // ---- counters over whole runs ----

  datatype Counts = Counts(accepted: nat, full: nat, aborted: nat, discarded: nat, lost: nat, peak: nat)

  predicate Answered(s: Split, a: Action, status: Status)
    requires Legal(s, a)
  {
    a.Write? && WriteRect(s.m, a.x, a.y, a.w, a.h, a.px).0 == status
  }

  /** pump frees a slot of an aborted frame. */
  predicate Discards(s: Split, a: Action)
    requires Plain(s)
  {
    a.Tick? && s.pc.Looked? && HeadAborted(s.m)
  }

  /** A frame is lost: a rectangle of it does not go out, or the UI or the session takes it away unfinished. */
  predicate Loses(s: Split, a: Action, script: Script)
    requires Plain(s) && Legal(s, a)
  {
    var m := s.m;
    match a
    case Tick =>
      var m' := Step(s, script).m;
      |m'.log| > |m.log| && m.wire.open && Delivery.IsFailedRect(m'.log[|m.log|], Tag(m))
    case Drop => Busy(m) && m.abortPending.None?
    case Disconnect => m.connected && (m.building || m.endQueued || m.queue != [] || m.wire.open)
    case Enable(on) => !on && m.wire.open
    case _ => false
  }

  function Max(a: nat, b: nat): nat { if a >= b then a else b }

  function One(b: bool): nat { if b then 1 else 0 }

  /** What an observer of the calls and of pump's steps would count. */
  ghost function CountRun(s: Split, acts: seq<Action>, script: Script): Counts
    requires Plain(s) && LegalRun(s, acts, script)
    decreases |acts|
  {
    if acts == [] then Counts(0, 0, 0, 0, 0, |s.m.queue|)
    else
      PlainKept(s, acts[0], script);
      var c := CountRun(Act(s, acts[0], script), acts[1..], script);
      Counts(c.accepted + One(Answered(s, acts[0], Ok)), c.full + One(Answered(s, acts[0], QueueFull)),
             c.aborted + One(Answered(s, acts[0], FrameAborted)), c.discarded + One(Discards(s, acts[0])),
             c.lost + One(Loses(s, acts[0], script)), Max(c.peak, |s.m.queue|))
  }

  /** Rectangles in the UI's frames. */
  function Drawn(hist: seq<Frame>): nat {
    if hist == [] then 0 else Drawn(hist[..|hist| - 1]) + |hist[|hist| - 1].rects|
  }

  predicate Moved(s: Split, a: Action, s': Split, script: Script)
    requires Plain(s) && Legal(s, a)
  {
    var t, t' := s.m.stats, s'.m.stats;
    && Drawn(s'.m.hist) == Drawn(s.m.hist) + One(Answered(s, a, Ok))
    && t'.queueFullEvents == t.queueFullEvents + One(Answered(s, a, QueueFull))
    && t'.rectsDropped == t.rectsDropped + One(Answered(s, a, FrameAborted)) + One(Discards(s, a))
    && t'.framesDropped == t.framesDropped + One(Loses(s, a, script))
    && t'.queuePeak == Max(t.queuePeak, |s'.m.queue|)
  }

  predicate Sane(m: Sender) { (m.building ==> m.hist != []) && |m.queue| <= m.stats.queuePeak }

  lemma DrawnLast(hist: seq<Frame>, f: Frame)
    requires hist != []
    ensures Drawn(SetLast(hist, f)) == Drawn(hist) - |Last(hist).rects| + |f.rects|
  {
    assert SetLast(hist, f)[..|hist| - 1] == hist[..|hist| - 1];
  }

  lemma DrawnNext(hist: seq<Frame>, f: Frame)
    ensures Drawn(hist + [f]) == Drawn(hist) + |f.rects|
  {
    assert (hist + [f])[..|hist|] == hist;
  }

  lemma EnqueueMoves(m: Sender, r: Rect)
    requires Sane(m) && m.hist != []
    ensures var m' := Enqueue(m, r);
            && Drawn(m'.hist) == Drawn(m.hist) + 1 && m'.hist != []
            && m'.stats == m.stats.(queuePeak := Max(m.stats.queuePeak, |m'.queue|))
  {
    hide Drawn;
    DrawnLast(m.hist, Last(m.hist).(rects := Last(m.hist).rects + [r]));
  }

  lemma AcceptMoves(m: Sender, r: Rect)
    requires Sane(m)
    ensures var (answer, m') := Accept(m, r);
            && Drawn(m'.hist) == Drawn(m.hist) + One(answer == Ok) && (m'.building ==> m'.hist != [])
            && m'.stats == m.stats.(queuePeak := Max(m.stats.queuePeak, |m'.queue|),
                                    queueFullEvents := m.stats.queueFullEvents + One(answer == QueueFull),
                                    rectsDropped := m.stats.rectsDropped + One(answer == FrameAborted))
  {
    hide Enqueue, Drawn;
    var m1 := StartFrame(m);
    DrawnNext(m.hist, Frame(m1.frameId, m1.frameType, m.width, m.height, [], false, false));
    EnqueueMoves(m1, r);
    if m.building {
      EnqueueMoves(m, r);
    }
  }

  lemma WriteMoves(s: Split, a: Action, script: Script)
    requires Plain(s) && Legal(s, a) && a.Write? && Sane(s.m)
    ensures Moved(s, a, Act(s, a, script), script) && Sane(Act(s, a, script).m)
  {
    hide Accept, Drawn;
    if a.w > 0 && a.h > 0 && a.px.Some? {
      AcceptMoves(s.m, RectOf(a.x, a.y, a.w, a.h, a.px));
    }
  }

  lemma MarksDraw(m: Sender)
    ensures Drawn(MarkDropped(m.hist)) == Drawn(m.hist) && Drawn(Flush(m).hist) == Drawn(m.hist)
  {
    if m.hist != [] {
      DrawnLast(m.hist, Last(m.hist).(dropped := true));
      DrawnLast(m.hist, Last(m.hist).(flushed := true));
    }
    hide Drawn;
  }

  lemma StepMoves(s: Split, script: Script)
    requires Plain(s) && Sane(s.m)
    ensures Moved(s, Tick, Step(s, script), script) && Sane(Step(s, script).m)
  {
    hide Drawn, SendBegin, SendRect, SendEnd;
    Delivery.GivesUpIff(s, script);
    match s.pc
    case Taken(held) => BeginEffect(s.m, script, held);
    case Begun(held, active) =>
      SendRectEffect(s.m, script, held);
      RectMoves(s.m, script, held);
    case Ending(c, k) =>
      EndEffect(s.m, script, c, k);
      EndMoves(s.m, script, c, k);
    case _ =>
  }

  lemma RectMoves(m: Sender, script: Script, held: Held)
    requires m.queue != []
    ensures var t := SendRect(m, script, held).stats;
            t == m.stats.(rectsSent := t.rectsSent, framesDropped := t.framesDropped)
  {
    hide Fate;
  }

  lemma EndMoves(m: Sender, script: Script, c: Closing, k: nat)
    requires c.Sends()
    ensures var t, t' := m.stats, SendEnd(m, script, c, k).stats;
            && t'.queueFullEvents == t.queueFullEvents && t'.rectsDropped == t.rectsDropped
            && t'.framesDropped == t.framesDropped && t'.queuePeak == t.queuePeak
  {
    hide Fate, EndMessage;
  }

  lemma ActMoves(s: Split, a: Action, script: Script)
    requires Plain(s) && Legal(s, a) && Sane(s.m)
    ensures Moved(s, a, Act(s, a, script), script) && Sane(Act(s, a, script).m)
  {
    hide Moved, Sane;
    match a
    case Tick => StepMoves(s, script);
    case Write(_, _, _, _, _) => WriteMoves(s, a, script);
    case FlushFrame => UiMoves(s, a, script);
    case Drop => UiMoves(s, a, script);
    case _ => SessionMoves(s, a, script);
  }

  lemma UiMoves(s: Split, a: Action, script: Script)
    requires Plain(s) && (a.FlushFrame? || a.Drop?) && Sane(s.m)
    ensures Moved(s, a, Act(s, a, script), script) && Sane(Act(s, a, script).m)
  {
    hide Drawn, MarkDropped;
    MarksDraw(s.m);
  }

  lemma SessionMoves(s: Split, a: Action, script: Script)
    requires Plain(s) && Legal(s, a) && Session(a) && Sane(s.m)
    ensures Moved(s, a, Act(s, a, script), script) && Sane(Act(s, a, script).m)
  {
    hide Drawn, ClearFrame, MarkDropped, Busy, InFlight;
    ClearEffect(s.m);
    ClearDraws(s.m);
    match a
    case Connect =>
    case Disconnect =>
    case Enable(on) =>
    case _ =>
  }

  lemma ClearDraws(m: Sender)
    ensures Drawn(ClearFrame(m).hist) == Drawn(m.hist) && ClearFrame(m).stats == m.stats
  {
    hide Drawn, MarkDropped;
    MarksDraw(m);
  }

  /** The counters are those of an observer, in every run, raced or not. Every rectangle accepted is in one of the UI's
      frames, none is there that was not accepted. */
  lemma {:induction false} CountersAddUp(s: Split, acts: seq<Action>, script: Script)
    requires Plain(s) && LegalRun(s, acts, script) && Sane(s.m)
    ensures var c, t, t' := CountRun(s, acts, script), s.m.stats, After(s, acts, script).m.stats;
            && Drawn(After(s, acts, script).m.hist) == Drawn(s.m.hist) + c.accepted
            && t'.queueFullEvents == t.queueFullEvents + c.full
            && t'.rectsDropped == t.rectsDropped + c.aborted + c.discarded
            && t'.framesDropped == t.framesDropped + c.lost
            && t'.queuePeak == Max(t.queuePeak, c.peak)
    decreases |acts|
  {
    hide Act, Plain, Answered, Discards, Loses, Drawn;
    if acts != [] {
      ActMoves(s, acts[0], script);
      PlainKept(s, acts[0], script);
      CountersAddUp(Act(s, acts[0], script), acts[1..], script);
    }
  }
}
