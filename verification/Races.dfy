/** Where the results of Runs stop holding: one-step statements of exactly when. Witnesses has the runs. */
module Races {
  import opened Wire
  import opened SenderState
  import opened SplitPump
  import opened FrameAssembly
  import opened Fidelity
  import opened Continuity
  import opened Runs

  // ---- a writeRect between the two critical sections of phase 3 ----

  /** The end decided in phase 3 accounts for every accepted rectangle exactly when the queue is still empty. */
  lemma EndIsCompleteIff(s: Split)
    requires Inv(s) && s.pc.Popped?
    requires CloseOut(s.m).1.CommitEnd?
    ensures var c, f := CloseOut(s.m).1, Last(s.m.hist);
            && c.rects <= |f.rects| && c.bytes == Bytes(f.rects[..c.rects]) && f.flushed
            && (c.rects == |f.rects| <==> s.m.queue == [])
  {
  }

  lemma MatchedAtDecision(s: Split, script: Script)
    requires Sound(s, script) && AllRepresentable(s.m.hist) && !s.m.needFull
    requires s.pc.Popped? && CloseOut(s.m).1.CommitEnd?
    ensures var a, f, n := Heard(s.m.log), Last(s.m.hist), |Last(s.m.hist).rects| - |s.m.queue|;
            && 0 <= n && a.state == InFrame && a.begin == BeginOf(f) && a.rects == f.rects[..n]
            && a.rectCount == n == CloseOut(s.m).1.rects && a.byteCount == CloseOut(s.m).1.bytes == Bytes(f.rects[..n])
            && (f.ftype == Full || a.hasBase) && CloseOut(s.m).1.id == f.id && Representable(f)
    ensures Inv(s) && 0 < |s.m.hist|
  {
    assert Last(s.m.hist).id == s.m.frameId;
    hide Heard, Origins, Bytes, HistIds, SlotOf, OnScreen, Faithful;
    assert Matched(s, Heard(s.m.log)) && InStep(s, Heard(s.m.log)) && Chained(s, Heard(s.m.log), Origins(s.m.log));
    assert Representable(s.m.hist[|s.m.hist| - 1]);
  }

  /** ... and once that end arrives, the receiver commits the frame without the rectangles still queued: the whole
      frame exactly if there are none. */
  lemma CommitIsWholeIff(s: Split, script: Script)
    requires Sound(s, script) && AllRepresentable(s.m.hist) && !s.m.needFull
    requires s.pc.Popped? && CloseOut(s.m).1.CommitEnd? && script(|s.m.log|) == Delivered
    ensures var f := Last(s.m.hist);
            var n := |f.rects| - |s.m.queue|;
            var s' := Step(Step(s, script), script);
            && 0 <= n && Heard(s'.m.log).commits == Heard(s.m.log).commits + [Committed(BeginOf(f), f.rects[..n])]
            && (f.rects[..n] == f.rects <==> s.m.queue == [])
  {
    hide Step, CloseOut, Sound, Inv, Heard, Bytes, OnEnd, Payload, AllRepresentable;
    MatchedAtDecision(s, script);
    var f, a, c := Last(s.m.hist), Heard(s.m.log), CloseOut(s.m).1;
    BytesPrefix(f.rects, |f.rects| - |s.m.queue|);
    DecisionIsSent(s, script);
    HearOne(s.m.log, Sent(FrameEnd(f.id, c.rects, c.bytes, false), Delivered, Tag(s.m)));
    DeliverEnd(a, f.id, c.rects, c.bytes, false);
  }

  lemma DecisionIsSent(s: Split, script: Script)
    requires Inv(s) && s.pc.Popped? && CloseOut(s.m).1.CommitEnd? && script(|s.m.log|) == Delivered
    requires var c := CloseOut(s.m).1; c.rects <= MAX_FRAME_RECTS && c.bytes <= MAX_FRAME_BYTES
    ensures var c := CloseOut(s.m).1;
            Step(Step(s, script), script).m.log ==
            s.m.log + [Sent(FrameEnd(c.id, c.rects, c.bytes, false), Delivered, Tag(s.m))]
  {
    hide Current, QueueIsTail, WireIsCurrent;
    var m1, c := CloseOut(s.m).0, CloseOut(s.m).1;
    assert m1.log == s.m.log;
    assert Step(s, script) == Split(m1, Ending(c, Tag(s.m)));
    hide CloseOut;
    assert Fate(EndMessage(c), Delivered) == Delivered;
  }

  // ---- a frame started while the end of the previous one is being sent ----

  lemma AboutToCommit(s: Split, script: Script)
    requires Sound(s, script) && AllRepresentable(s.m.hist)
    requires s.pc.Ending? && s.pc.closing.CommitEnd? && !s.m.needFull && s.pc.frame == |s.m.hist| - 1
    ensures Commits(Heard(s.m.log), s.pc.closing) && Base(Origins(s.m.log)) < s.pc.frame
    ensures Inv(s) && s.pc.closing.rects == |s.m.hist[s.pc.frame].rects|
  {
    hide Heard, Origins, Bytes, HistIds, SlotOf, OnScreen;
    assert Representable(s.m.hist[s.pc.frame]);
    assert Finishing(s, Heard(s.m.log), Origins(s.m.log), script) && InStep(s, Heard(s.m.log));
    assert Settled(s, Origins(s.m.log));
    var c, f := s.pc.closing, s.m.hist[s.pc.frame];
    assert f.rects[..c.rects] == f.rects;
  }

  lemma GapStart(s: Split, r: Rect)
    requires Inv(s) && s.pc.Ending? && s.pc.frame == |s.m.hist| - 1 && !s.m.needFull
    requires s.pc.closing.CommitEnd? && s.pc.closing.rects == |Last(s.m.hist).rects|
    ensures s.m.queue == []
    ensures var m1 := Enqueue(StartFrame(s.m), r);
            && Accept(s.m, r) == (Ok, m1) && m1.frameType == Partial
            && m1.log == s.m.log && |m1.hist| == |s.m.hist| + 1
  {
  }

  /** Such a frame is PARTIAL before its base is settled: it gets that base exactly if the end arrives. */
  lemma GapStartHasBaseIff(s: Split, r: Rect, script: Script)
    requires Sound(s, script) && Honest(script) && AllRepresentable(s.m.hist)
    requires s.pc.Ending? && s.pc.closing.CommitEnd? && !s.m.needFull && s.pc.frame == |s.m.hist| - 1
    ensures var m1 := Enqueue(StartFrame(s.m), r);
            && Accept(s.m, r) == (Ok, m1) && m1.frameType == Partial
            && var m2 := Step(Split(m1, s.pc), script).m;
               (Base(Origins(m2.log)) == |m2.hist| - 2 <==> script(|s.m.log|) == Delivered)
  {
    hide Sound, Inv, Heard, Origins, Commits, Enqueue, StartFrame, Accept, AllRepresentable;
    AboutToCommit(s, script);
    GapStart(s, r);
    var m1 := Enqueue(StartFrame(s.m), r);
    HonestEnd(m1, script, s.pc.closing, s.pc.frame);
    assert Step(Split(m1, s.pc), script).m == SendEnd(m1, script, s.pc.closing, s.pc.frame);
  }

  // ---- frames whose counts do not fit FRAME_END ----

  function HearRects(a: Assembler, rects: seq<Rect>): Assembler {
    if rects == [] then a
    else OnRect(HearRects(a, rects[..|rects| - 1]), Payload(FrameRect(rects[|rects| - 1])))
  }

  lemma {:induction false} RectsHeard(a: Assembler, rects: seq<Rect>)
    requires a.state == InFrame && a.rectCount == 0 && a.byteCount == 0 && a.rects == []
    requires forall i | 0 <= i < |rects| :: Fits(rects[i], a.begin.width, a.begin.height) && 8 + |rects[i].pixels| <= MAX_MESSAGE_PAYLOAD
    ensures if |rects| <= MAX_FRAME_RECTS && Bytes(rects) <= MAX_FRAME_BYTES
            then HearRects(a, rects) == a.(rectCount := |rects|, byteCount := Bytes(rects), rects := rects)
            else HearRects(a, rects) == Discard(HearRects(a, rects)) && HearRects(a, rects).commits == a.commits
    decreases |rects|
  {
    hide ParseRect, Payload, Fits, OnRect;
    if rects != [] {
      var before, r := rects[..|rects| - 1], rects[|rects| - 1];
      RectsHeard(a, before);
      BytesGrow(before, r);
      assert before + [r] == rects;
      var a1 := HearRects(a, before);
      if a1.state == InFrame {
        DeliverRect(a1, r);
      } else {
        RectIgnored(a1, Payload(FrameRect(r)));
      }
    }
  }

  lemma RectIgnored(a: Assembler, p: seq<byte>)
    requires a.state != InFrame
    ensures OnRect(a, p) == a
  {
    hide ParseRect;
  }

  /** Sent whole and undamaged, a frame is committed exactly when its counts fit FRAME_END and, if PARTIAL, a base
      exists; the sender counts it as sent either way. */
  lemma WholeFrameCommitsIff(a: Assembler, f: Frame)
    requires f.rects != [] && 1 <= f.width <= MAX_SIDE && 1 <= f.height <= MAX_SIDE && FrameOnScreen(f)
    requires forall i | 0 <= i < |f.rects| :: 8 + |f.rects[i].pixels| <= MAX_MESSAGE_PAYLOAD
    ensures var a1 := OnBegin(a, Payload(FrameBegin(f.id, f.ftype, f.width, f.height)));
            var a2 := HearRects(a1, f.rects);
            var a3 := OnEnd(a2, Payload(FrameEnd(f.id, |f.rects| % 0x1_0000, Bytes(f.rects) % 0x1_0000_0000, false)));
            a3.commits == (if Representable(f) && (f.ftype == Full || a.hasBase)
                           then a.commits + [Committed(BeginOf(f), f.rects)] else a.commits)
  {
    hide OnBegin, OnEnd, HearRects, Payload, Fits;
    DeliverBegin(a, f.id, f.ftype, f.width, f.height);
    var a1 := OnBegin(a, Payload(FrameBegin(f.id, f.ftype, f.width, f.height)));
    RectsHeard(a1, f.rects);
    var a2 := HearRects(a1, f.rects);
    if a2.state == InFrame {
      DeliverEnd(a2, f.id, |f.rects| % 0x1_0000, Bytes(f.rects) % 0x1_0000_0000, false);
    } else {
      EndIgnored(a2, Payload(FrameEnd(f.id, |f.rects| % 0x1_0000, Bytes(f.rects) % 0x1_0000_0000, false)));
    }
  }
}
