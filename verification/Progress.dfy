/** pump always comes to rest, and dropPendingFrame frees a stuck sender. */
module Progress {
  import opened Wire
  import opened SenderState
  import opened SplitPump
  import opened FrameAssembly
  import opened Fidelity
  import opened Runs

  /** Nothing to send: pump answers false and changes nothing. */
  predicate AtRest(m: Sender) { m.queue == [] && CloseOut(m).1 == Nothing }

  lemma RestIsStable(m: Sender, script: Script)
    ensures Pump(m, script).1 <==> !AtRest(m)
    ensures AtRest(m) ==> Pump(m, script) == (m, false)
  {
  }

  /** n calls of pump with no UI call in between. */
  function Pumps(m: Sender, n: nat, script: Script): Sender
    decreases n
  {
    if n == 0 then m else Pumps(Pump(m, script).0, n - 1, script)
  }

  lemma SlotShrinksQueue(m: Sender, script: Script)
    requires m.queue != []
    ensures |PumpSlot(m, script).queue| == |m.queue| - 1
  {
    hide SendBegin, SendRect, SendEnd, CloseOut;
    var held := Hold(m.queue[0]);
    BeginLeaves(m, script, held);
    var (m1, active) := if held.isFirst then SendBegin(m, script, held) else (m, true);
    RectLeaves(m1, script, held);
    var m2 := if active then SendRect(m1, script, held) else m1;
    CloseLeavesQueue(Pop(m2), script, Tag(m));
  }

  lemma CloseLeavesQueue(m: Sender, script: Script, k: nat)
    ensures var (m', c) := CloseOut(m);
            m'.queue == m.queue && (c.Sends() ==> SendEnd(m', script, c, k).queue == m.queue)
  {
    hide Fate, CountFrame, EndMessage;
  }

  lemma PumpShrinksQueue(m: Sender, script: Script)
    requires m.queue != []
    ensures |Pump(m, script).0.queue| == |m.queue| - 1
  {
    hide PumpSlot;
    SlotShrinksQueue(m, script);
  }

  lemma EmptyThenRest(m: Sender, script: Script)
    requires m.queue == []
    ensures AtRest(Pump(m, script).0)
  {
  }

  /** Left alone, pump is at rest after at most queued + 1 calls, from any state whatever. */
  lemma {:induction false} PumpComesToRest(m: Sender, script: Script)
    ensures AtRest(Pumps(m, |m.queue| + 1, script))
    decreases |m.queue|
  {
    if m.queue == [] {
      EmptyThenRest(m, script);
    } else {
      PumpShrinksQueue(m, script);
      PumpComesToRest(Pump(m, script).0, script);
    }
  }

  /** ... and stays there. */
  lemma {:induction false} RestStays(m: Sender, n: nat, script: Script)
    requires AtRest(m)
    ensures Pumps(m, n, script) == m
    decreases n
  {
    if n > 0 {
      RestIsStable(m, script);
      RestStays(m, n - 1, script);
    }
  }

  // ---- a sender that is stuck without help ----

  /** The state a failed FRAME_BEGIN leaves behind once its frame has been flushed and its slots are gone. */
  predicate Stuck(m: Sender) {
    m.queue == [] && m.endQueued && !m.building && !m.wire.open && m.abortPending.None?
  }

  /** No pump, flush or writeRect ever leaves it. */
  lemma StuckStays(m: Sender, script: Script, x: int, y: int, w: int, h: int, px: Option<seq<byte>>)
    requires Stuck(m) && Readable(w, h, px)
    ensures Pump(m, script) == (m, false) && Flush(m) == m
    ensures WriteRect(m, x, y, w, h, px).1 == m && WriteRect(m, x, y, w, h, px).0 != Ok
  {
  }

  /** A frame the UI has flushed; only the slot at the head may be its first. */
  predicate Flushed(m: Sender) {
    m.endQueued && !m.building && m.abortPending.None? && forall i | 0 < i < |m.queue| :: !m.queue[i].isFirst
  }

  predicate FirstIsQueued(m: Sender) { m.queue != [] && m.queue[0].isFirst }

  /** The end of the frame is decided, or it will be: an abort is pending. */
  predicate Released(m: Sender) { m.abortPending.Some? || !m.endQueued }

  predicate SameConfig(m: Sender, m': Sender) {
    && m'.enabled == m.enabled && m'.connected == m.connected && m'.width == m.width && m'.height == m.height
    && m'.slots == m.slots && m'.slotBytes == m.slotBytes
  }

  /** What pump does with a slot: the queue shrinks, and then it may close. */
  lemma SlotEffect(m: Sender, script: Script)
    requires m.queue != [] && !HeadAborted(m)
    ensures var held := Hold(m.queue[0]);
            var (m1, active) := if held.isFirst then SendBegin(m, script, held) else (m, true);
            m1.queue == m.queue &&
            var m2 := if active then SendRect(m1, script, held) else m1;
            var open := m.wire.open || (held.isFirst && script(|m.log|).Ok());
            && m2.queue == m.queue && m2.building == m.building && m2.endQueued == m.endQueued && m2.wire.open == open
            && (m2.abortPending == m.abortPending || (open && m2.abortPending.Some?))
            && SameConfig(m, m2) && (m.needFull ==> m2.needFull)
            && Pump(m, script).0 == (if |m.queue| > 1 then m2.(queue := m.queue[1..])
                                     else Closed(m2.(queue := []), script, Tag(m)))
  {
    hide SendRect, SendBegin, SendEnd, CloseOut;
    var held := Hold(m.queue[0]);
    BeginEffect(m, script, held);
    BeginLeaves(m, script, held);
    var (m1, active) := if held.isFirst then SendBegin(m, script, held) else (m, true);
    if held.isFirst {
      BeginAnswer(m, script, held);
    }
    SendRectEffect(m1, script, held);
  }

  lemma BeginAnswer(m: Sender, script: Script, held: Held)
    ensures SendBegin(m, script, held).1 == script(|m.log|).Ok()
  {
  }

  /** After the last slot, or with none: the closing decision and its end. */
  function Closed(m: Sender, script: Script, frame: nat): Sender {
    var (m1, c) := CloseOut(m);
    if c.Sends() then SendEnd(m1, script, c, frame) else m1
  }

  lemma ClosedEffect(m: Sender, script: Script, frame: nat)
    requires m.queue == []
    ensures var m' := Closed(m, script, frame);
            && m'.queue == [] && (m.abortPending.Some? || (m.endQueued && m.wire.open) ==> !m'.endQueued)
            && (m.abortPending.None? && !m.wire.open ==> m' == m)
            && (Released(m) ==> Released(m'))
  {
    var (m1, c) := CloseOut(m);
    if c.Sends() {
      EndEffect(m1, script, c, frame);
    }
    hide SendEnd;
  }

  lemma ReleasedPump(m: Sender, script: Script)
    requires Released(m)
    ensures Released(Pump(m, script).0)
  {
    if m.queue == [] {
      ClosedEffect(m, script, Tag(m));
    } else if !HeadAborted(m) {
      SlotEffect(m, script);
      var held := Hold(m.queue[0]);
      var (m1, active) := if held.isFirst then SendBegin(m, script, held) else (m, true);
      var m2 := if active then SendRect(m1, script, held) else m1;
      ClosedEffect(m2.(queue := []), script, Tag(m));
    }
    hide SendBegin, SendRect, SendEnd, CloseOut, PumpSlot;
  }

  lemma {:induction false} ReleasedPumps(m: Sender, n: nat, script: Script)
    requires Released(m)
    ensures Released(Pumps(m, n, script))
    decreases n
  {
    hide Released, Pump;
    if n > 0 {
      ReleasedPump(m, script);
      ReleasedPumps(Pump(m, script).0, n - 1, script);
    }
  }

  lemma ReleasedIsNotStuck(m: Sender)
    requires Released(m)
    ensures !Stuck(m)
  {
  }

  /** Left alone, a flushed frame gets stuck exactly if nothing of it is open on the wire and no FRAME_BEGIN of it will
      be taken: whatever the length of the queue, from any state whatever. */
  lemma {:induction false} FlushedFrameSticksIff(m: Sender, script: Script)
    requires Flushed(m)
    ensures Stuck(Pumps(m, |m.queue| + 1, script)) <==>
              !m.wire.open && !(FirstIsQueued(m) && script(|m.log|).Ok())
    decreases |m.queue|
  {
    hide Pump, Closed, SendBegin, SendRect;
    var m' := Pump(m, script).0;
    assert Pumps(m, |m.queue| + 1, script) == Pumps(m', |m.queue|, script);
    if m.queue == [] {
      assert m' == Closed(m, script, Tag(m)) by { PumpOfNothing(m, script); }
      ClosedEffect(m, script, Tag(m));
      assert Pumps(m', 0, script) == m';
    } else {
      SlotEffect(m, script);
      PumpShrinksQueue(m, script);
      var held := Hold(m.queue[0]);
      var (m1, active) := if held.isFirst then SendBegin(m, script, held) else (m, true);
      var m2 := if active then SendRect(m1, script, held) else m1;
      if |m.queue| == 1 {
        ClosedEffect(m2.(queue := []), script, Tag(m));
      }
      if Released(m') {
        ReleasedPumps(m', |m.queue|, script);
        ReleasedIsNotStuck(Pumps(m', |m.queue|, script));
      } else {
        FlushedFrameSticksIff(m', script);
      }
    }
  }

  lemma PumpOfNothing(m: Sender, script: Script)
    requires m.queue == []
    ensures Pump(m, script).0 == Closed(m, script, Tag(m))
  {
  }

  // ---- dropPendingFrame ----

  predicate Dropping(m: Sender) {
    m.needFull && !m.building && !m.endQueued && (m.abortPending.Some? || !Busy(m))
  }

  lemma DropStartsDropping(m: Sender)
    ensures Dropping(DropPendingFrame(m))
  {
  }

  lemma DroppingPump(m: Sender, script: Script)
    requires Dropping(m)
    ensures Dropping(Pump(m, script).0) && SameConfig(m, Pump(m, script).0)
  {
    hide SendBegin, SendRect, SendEnd, CloseOut, PumpSlot;
    if m.queue == [] {
      DroppingCloses(m, script, Tag(m));
    } else if !HeadAborted(m) {
      SlotEffect(m, script);
      var held := Hold(m.queue[0]);
      var (m1, active) := if held.isFirst then SendBegin(m, script, held) else (m, true);
      var m2 := if active then SendRect(m1, script, held) else m1;
      DroppingCloses(m2.(queue := []), script, Tag(m));
    }
  }

  lemma DroppingCloses(m: Sender, script: Script, frame: nat)
    requires Dropping(m) && m.queue == []
    ensures Dropping(Closed(m, script, frame)) && SameConfig(m, Closed(m, script, frame))
  {
    hide SendEnd;
    var (m1, c) := CloseOut(m);
    if c.Sends() {
      EndEffect(m1, script, c, frame);
    }
  }

  lemma {:induction false} DroppingPumps(m: Sender, n: nat, script: Script)
    requires Dropping(m)
    ensures Dropping(Pumps(m, n, script)) && SameConfig(m, Pumps(m, n, script))
    decreases n
  {
    hide Dropping, Pump;
    if n > 0 {
      DroppingPump(m, script);
      DroppingPumps(Pump(m, script).0, n - 1, script);
    }
  }

  /** From any state whatever, dropping the frame and letting pump run dry leaves nothing in flight; the next valid
      writeRect is then accepted and opens a FULL frame. */
  lemma DropRecovers(m: Sender, script: Script)
    requires m.slots >= 1
    ensures var m' := Pumps(DropPendingFrame(m), |DropPendingFrame(m).queue| + 1, script);
            && !Busy(m') && m'.needFull
            && (forall x, y, w, h, px: seq<byte> |
                  && m.enabled && m.connected && x >= 0 && y >= 0 && w > 0 && h > 0
                  && x + w <= m.width && y + h <= m.height && |px| >= w * h * 2 && w * h * 2 <= m.slotBytes ::
                  && WriteRect(m', x, y, w, h, Some(px)).0 == Ok
                  && WriteRect(m', x, y, w, h, Some(px)).1.frameType == Full)
  {
    var m1 := DropPendingFrame(m);
    DropStartsDropping(m);
    DroppingPumps(m1, |m1.queue| + 1, script);
    PumpComesToRest(m1, script);
    var m' := Pumps(m1, |m1.queue| + 1, script);
    assert !Busy(m');
    forall x, y, w, h, px: seq<byte> |
        && m.enabled && m.connected && x >= 0 && y >= 0 && w > 0 && h > 0
        && x + w <= m.width && y + h <= m.height && |px| >= w * h * 2 && w * h * 2 <= m.slotBytes
      ensures WriteRect(m', x, y, w, h, Some(px)).0 == Ok && WriteRect(m', x, y, w, h, Some(px)).1.frameType == Full
    {
      FirstWriteOpens(m', x, y, w, h, px);
    }
  }

  lemma FirstWriteOpens(m: Sender, x: int, y: int, w: int, h: int, px: seq<byte>)
    requires m.slots >= 1 && !Busy(m) && m.needFull && m.enabled && m.connected
    requires x >= 0 && y >= 0 && w > 0 && h > 0 && x + w <= m.width && y + h <= m.height
    requires |px| >= w * h * 2 && w * h * 2 <= m.slotBytes
    ensures WriteRect(m, x, y, w, h, Some(px)).0 == Ok && WriteRect(m, x, y, w, h, Some(px)).1.frameType == Full
  {
  }
}
