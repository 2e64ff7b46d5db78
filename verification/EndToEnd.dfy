/** From the UI's writeRect calls to the pixels on the receiver's screen. */
module EndToEnd {
  import opened Wire
  import opened SenderState
  import opened SplitPump
  import opened FrameAssembly
  import opened Fidelity
  import opened Continuity
  import opened Runs
  import opened Screens

  // ---- the screen at the end of the log ----

  function ToDisplay(c: Committed): DisplayFrame {
    DisplayFrame(c.begin.id, TypeByte(c.begin.ftype), 0, c.begin.width, c.begin.height, c.rects)
  }

  /** Every commit is handed to the screen; the end of a session clears it. */
  function ScreenOf(log: seq<Entry>): Shown {
    if log == [] then Blank
    else
      var n := |log| - 1;
      var commits := Heard(log).commits;
      if log[n].SessionReset? then Blank
      else if |commits| > |Heard(log[..n]).commits| then AfterFrame(ScreenOf(log[..n]), ToDisplay(commits[|commits| - 1]))
      else ScreenOf(log[..n])
  }

  /** One entry commits at most one frame, and a PARTIAL one only over a base. */
  lemma HearCases(a: Assembler, e: Entry)
    ensures var a', n := Hear(a, e), |a.commits|;
            if e.SessionReset? then a'.commits == a.commits && !a'.hasBase
            else if |a'.commits| <= n then a'.commits == a.commits && a'.hasBase == a.hasBase
            else a'.commits == a.commits + [a'.commits[n]] && a'.hasBase
                 && (a'.commits[n].begin.ftype == Partial ==> a.hasBase)
  {
    hide ParseBegin, ParseRect, Payload;
  }

  // ---- the size of the screen along a chain of PARTIAL frames ----

  ghost predicate SameSize(f: Frame, g: Frame) { f.width == g.width && f.height == g.height }

  ghost predicate PartialsKeepSize(hist: seq<Frame>) {
    forall k | 0 <= k < |hist| && hist[k].ftype == Partial :: k > 0 && SameSize(hist[k - 1], hist[k])
  }

  /** A sender that would go on with PARTIAL still has the geometry of its last frame. */
  ghost predicate Steady(m: Sender) {
    && (!m.needFull ==> m.hist != [] && Last(m.hist).width == m.width && Last(m.hist).height == m.height)
    && PartialsKeepSize(m.hist)
  }

  lemma LastChanges(hist: seq<Frame>, f: Frame)
    requires hist != [] && PartialsKeepSize(hist) && f.ftype == Last(hist).ftype && SameSize(f, Last(hist))
    ensures PartialsKeepSize(SetLast(hist, f))
  {
    var hist' := SetLast(hist, f);
    forall k | 0 <= k < |hist'| && hist'[k].ftype == Partial ensures k > 0 && SameSize(hist'[k - 1], hist'[k]) {
      assert hist[k].ftype == Partial;
    }
  }

  lemma DropSteady(m: Sender)
    requires Steady(m)
    ensures Steady(DropPendingFrame(m))
  {
    if m.hist != [] {
      LastChanges(m.hist, Last(m.hist).(dropped := true));
    }
  }

  lemma StartSteady(m: Sender, r: Rect)
    requires Steady(m)
    ensures Steady(Enqueue(StartFrame(m), r))
  {
    var m1 := StartFrame(m);
    assert m1.hist[..|m.hist|] == m.hist;
    forall k | 0 <= k < |m1.hist| && m1.hist[k].ftype == Partial ensures k > 0 && SameSize(m1.hist[k - 1], m1.hist[k]) {
      if k < |m.hist| {
        assert m.hist[k].ftype == Partial;
      }
    }
    EnqueueSteady(m1, r);
  }

  lemma EnqueueSteady(m: Sender, r: Rect)
    requires Steady(m)
    ensures Steady(Enqueue(m, r))
  {
    if m.hist != [] {
      LastChanges(m.hist, Last(m.hist).(rects := Last(m.hist).rects + [r]));
    }
  }

  lemma WriteSteady(m: Sender, x: int, y: int, w: int, h: int, px: Option<seq<byte>>)
    requires Config(m) && Current(m) && Steady(m) && Readable(w, h, px)
    ensures Steady(WriteRect(m, x, y, w, h, px).1)
  {
    hide Config, Current, Steady, WriteRect, Enqueue, StartFrame;
    WriteCases(m, x, y, w, h, px);
    var (status, m') := WriteRect(m, x, y, w, h, px);
    if status == Ok {
      StartSteady(m, RectOf(x, y, w, h, px));
      EnqueueSteady(m, RectOf(x, y, w, h, px));
    } else {
      LeavesSteady(m, m');
    }
  }

  /** What the TX task does to the UI's side: nothing, except that the next frame may have to be FULL. */
  ghost predicate Leaves(m: Sender, m': Sender) {
    m'.hist == m.hist && m'.width == m.width && m'.height == m.height && (m.needFull ==> m'.needFull)
  }

  lemma LeavesSteady(m: Sender, m': Sender)
    requires Steady(m) && Leaves(m, m')
    ensures Steady(m')
  {
  }

  lemma SendLeaves(m: Sender, script: Script, held: Held, c: Closing, k: nat)
    ensures Leaves(m, SendBegin(m, script, held).0)
    ensures m.queue != [] ==> Leaves(m, SendRect(m, script, held))
    ensures c.Sends() ==> Leaves(m, SendEnd(m, script, c, k))
  {
    hide SendBegin, SendRect, SendEnd;
    BeginLeavesUi(m, script, held);
    if m.queue != [] {
      RectLeavesUi(m, script, held);
    }
    if c.Sends() {
      EndLeavesUi(m, script, c, k);
    }
  }

  lemma BeginLeavesUi(m: Sender, script: Script, held: Held)
    ensures Leaves(m, SendBegin(m, script, held).0)
  {
    hide Fate, Tag;
  }

  lemma RectLeavesUi(m: Sender, script: Script, held: Held)
    requires m.queue != []
    ensures Leaves(m, SendRect(m, script, held))
  {
    hide Fate, Tag;
  }

  lemma EndLeavesUi(m: Sender, script: Script, c: Closing, k: nat)
    requires c.Sends()
    ensures Leaves(m, SendEnd(m, script, c, k))
  {
    hide Fate, CountFrame, EndMessage;
  }

  lemma RestLeaves(m: Sender)
    ensures Leaves(m, CloseOut(m).0) && Leaves(m, Pop(m)) && Leaves(m, DiscardHead(m))
  {
  }

  lemma StepSteady(s: Split, script: Script)
    requires Plain(s) && Steady(s.m)
    ensures Steady(Step(s, script).m)
  {
    var m' := Step(s, script).m;
    hide Steady, SendBegin, SendRect, SendEnd, CloseOut, Pop, DiscardHead;
    RestLeaves(s.m);
    match s.pc {
      case Taken(held) => SendLeaves(s.m, script, held, Nothing, 0);
      case Begun(held, _) => SendLeaves(s.m, script, held, Nothing, 0);
      case Ending(c, k) => SendLeaves(s.m, script, HELD_NONE, c, k);
      case _ =>
    }
    assert Leaves(s.m, m');
    LeavesSteady(s.m, m');
  }

  const HELD_NONE := Held(false, Full, 0, 0, 0, 0, 0, 0)

  lemma ClearSteady(m: Sender)
    requires Steady(m)
    ensures Steady(ClearFrame(m))
  {
    if m.hist != [] {
      LastChanges(m.hist, Last(m.hist).(dropped := true));
    }
  }

  lemma FlushSteady(m: Sender)
    requires Steady(m)
    ensures Steady(Flush(m))
  {
    if m.hist != [] {
      LastChanges(m.hist, Last(m.hist).(flushed := true));
    }
  }

  lemma SessionSteady(m: Sender, a: Action)
    requires Steady(m) && Session(a)
    ensures Steady(Act(Split(m, Outside), a, _ => Delivered).m)
  {
    ClearSteady(m);
    hide PartialsKeepSize;
  }

  lemma ActSteady(s: Split, a: Action, script: Script)
    requires Inv(s) && Legal(s, a) && Steady(s.m)
    ensures Steady(Act(s, a, script).m)
  {
    hide Steady, ClearFrame, Flush, WriteRect, Step, DropPendingFrame;
    match a
    case Tick => StepSteady(s, script);
    case Write(x, y, w, h, px) => WriteSteady(s.m, x, y, w, h, px);
    case FlushFrame => FlushSteady(s.m);
    case Drop => DropSteady(s.m);
    case _ => SessionSteady(s.m, a);
  }

  // ---- the screen as a run of UI frames ----

  /** The rectangles of hist[j..k], in order. */
  function UiRects(hist: seq<Frame>, j: nat, k: nat): seq<Rect>
    requires j <= k <= |hist|
  {
    if j == k then [] else UiRects(hist, j, k - 1) + hist[k - 1].rects
  }

  /** The screen shows hist[j..k + 1]: a FULL frame and the PARTIAL frames the UI made directly after it, each
      finished and none dropped. */
  ghost predicate ShowsRun(s: Shown, hist: seq<Frame>, j: nat, k: nat) {
    && j <= k < |hist| && hist[j].ftype == Full
    && (forall i | j < i <= k :: hist[i].ftype == Partial)
    && (forall i | j <= i <= k :: hist[i].flushed && !hist[i].dropped)
    && s.Image? && s.width == hist[k].width && s.height == hist[k].height && s.id == hist[k].id
    && s.drawn == UiRects(hist, j, k + 1)
  }

  ghost predicate ShowsSomeRun(s: Shown, hist: seq<Frame>, k: nat) { exists j :: ShowsRun(s, hist, j, k) }

  ghost predicate Sized(hist: seq<Frame>) {
    && PartialsKeepSize(hist)
    && forall k | 0 <= k < |hist| :: 1 <= hist[k].width <= MAX_SIDE && 1 <= hist[k].height <= MAX_SIDE
  }

  lemma FullShows(s: Shown, c: Committed, hist: seq<Frame>, k: nat)
    requires k < |hist| && Shows(c, hist[k]) && hist[k].ftype == Full && Sized(hist)
    ensures ShowsSomeRun(AfterFrame(s, ToDisplay(c)), hist, k)
  {
    assert UiRects(hist, k, k + 1) == [] + hist[k].rects;
    assert ShowsRun(AfterFrame(s, ToDisplay(c)), hist, k, k);
  }

  lemma PartialShows(s: Shown, c: Committed, hist: seq<Frame>, k: nat)
    requires 0 < k < |hist| && Shows(c, hist[k]) && hist[k].ftype == Partial && Sized(hist)
    requires ShowsSomeRun(s, hist, k - 1)
    ensures ShowsSomeRun(AfterFrame(s, ToDisplay(c)), hist, k)
  {
    var j :| ShowsRun(s, hist, j, k - 1);
    assert SameSize(hist[k - 1], hist[k]);
    assert ShowsRun(AfterFrame(s, ToDisplay(c)), hist, j, k);
  }

  lemma HeardPrefix(log: seq<Entry>, hist: seq<Frame>)
    requires log != [] && Faithful(Heard(log).commits, Origins(log), hist) && Unbroken(Origins(log), hist)
    ensures var before := log[..|log| - 1];
            Faithful(Heard(before).commits, Origins(before), hist) && Unbroken(Origins(before), hist)
  {
    var n := |log| - 1;
    HearCases(Heard(log[..n]), log[n]);
    var org, org' := Origins(log[..n]), Origins(log);
    hide Origins, Heard, Shows;
    assert org <= org' by { PrefixOrigins(log); }
    assert Heard(log[..n]).commits <= Heard(log).commits by { PrefixCommits(log); }
    assert |org| == |Heard(log[..n]).commits| by { CountsAgree(log[..n]); }
  }

  lemma PrefixOrigins(log: seq<Entry>)
    requires log != []
    ensures Origins(log[..|log| - 1]) <= Origins(log)
  {
  }

  lemma PrefixCommits(log: seq<Entry>)
    requires log != []
    ensures Heard(log[..|log| - 1]).commits <= Heard(log).commits
  {
    HearCases(Heard(log[..|log| - 1]), log[|log| - 1]);
  }

  lemma {:induction false} CountsAgree(log: seq<Entry>)
    ensures |Origins(log)| == |Heard(log).commits|
  {
    if log != [] {
      CountsAgree(log[..|log| - 1]);
      HearCases(Heard(log[..|log| - 1]), log[|log| - 1]);
    }
  }

  /** As long as the receiver has a base, the screen shows it: an unbroken run ending in the last commit. */
  lemma {:induction false} ScreenFollows(log: seq<Entry>, hist: seq<Frame>)
    requires Faithful(Heard(log).commits, Origins(log), hist) && Unbroken(Origins(log), hist) && Sized(hist)
    ensures ScreenOf(log).Image? <==> Heard(log).hasBase
    ensures Heard(log).hasBase ==> Origins(log) != [] && ShowsSomeRun(ScreenOf(log), hist, Base(Origins(log)))
    decreases |log|
  {
    hide Faithful, Origins, Heard, ScreenOf, ShowsSomeRun, Sized, AfterFrame, Unbroken, Hear;
    if log == [] {
      NothingHeard();
    } else {
      var before, e := log[..|log| - 1], log[|log| - 1];
      HeardPrefix(log, hist);
      CountsAgree(before);
      HearCases(Heard(before), e);
      assert log == before + [e];
      HearOne(before, e);
      ScreenOne(before, e);
      ScreenFollows(before, hist);
      if e.Sent? && |Heard(log).commits| > |Heard(before).commits| {
        CommitShows(ScreenOf(before), Heard(before).hasBase, Origins(before), Heard(log).commits, Origins(log), hist);
        RunIsImage(ScreenOf(log), hist, Base(Origins(log)));
      }
    }
  }

  lemma RunIsImage(s: Shown, hist: seq<Frame>, k: nat)
    requires ShowsSomeRun(s, hist, k)
    ensures s.Image?
  {
    var j :| ShowsRun(s, hist, j, k);
  }

  lemma NothingHeard()
    ensures ScreenOf([]) == Blank && !Heard([]).hasBase
  {
  }

  lemma ScreenOne(log: seq<Entry>, e: Entry)
    ensures var c := Heard(log + [e]).commits;
            ScreenOf(log + [e]) == if e.SessionReset? then Blank
                                   else if |c| > |Heard(log).commits| then AfterFrame(ScreenOf(log), ToDisplay(c[|c| - 1]))
                                   else ScreenOf(log)
  {
    assert (log + [e])[..|log|] == log;
  }

  lemma CommitShows(s: Shown, hasBase: bool, org: seq<nat>, commits: seq<Committed>, org': seq<nat>, hist: seq<Frame>)
    requires Faithful(commits, org', hist) && Unbroken(org', hist) && Sized(hist)
    requires |org'| == |org| + 1 && org <= org' && (commits[|org|].begin.ftype == Partial ==> hasBase)
    requires hasBase ==> org != [] && ShowsSomeRun(s, hist, Base(org))
    ensures ShowsSomeRun(AfterFrame(s, ToDisplay(commits[|org|])), hist, Base(org'))
  {
    var i := |org|;
    assert Shows(commits[i], hist[org'[i]]);
    hide ShowsSomeRun, Sized, AfterFrame;
    if hist[org'[i]].ftype == Full {
      FullShows(s, commits[i], hist, org'[i]);
    } else {
      assert org'[i - 1] == org[i - 1];
      PartialShows(s, commits[i], hist, org'[i]);
    }
  }

  // ---- main results ----

  lemma {:induction false} RunSteady(s: Split, acts: seq<Action>, script: Script)
    requires Inv(s) && Steady(s.m) && Plain(s) && LegalRun(s, acts, script) && CalmRun(s, acts, script)
    ensures Steady(After(s, acts, script).m)
    decreases |acts|
  {
    hide Steady, Inv, Plain;
    if acts != [] {
      PlainKept(s, acts[0], script);
      ActKeeps(s, acts[0], script);
      ActSteady(s, acts[0], script);
      RunSteady(Act(s, acts[0], script), acts[1..], script);
    }
  }

  /** Main result 4. Under the conditions of result 2 there is an image exactly while the receiver has a base, and it
      is what the UI drew in a FULL frame and in every frame it made after that one, up to the last one committed. */
  lemma ScreenShowsTheUi(queueSlots: nat, slotBytes: nat, acts: seq<Action>, script: Script)
    requires Honest(script) && LegalRun(Start(queueSlots, slotBytes), acts, script)
    requires CalmRun(Start(queueSlots, slotBytes), acts, script) && QuietRun(Start(queueSlots, slotBytes), acts, script)
    requires AllRepresentable(After(Start(queueSlots, slotBytes), acts, script).m.hist)
    ensures var m := After(Start(queueSlots, slotBytes), acts, script).m;
            && (ScreenOf(m.log).Image? <==> Heard(m.log).hasBase)
            && (ScreenOf(m.log).Image? ==>
                  Origins(m.log) != [] && ShowsSomeRun(ScreenOf(m.log), m.hist, Base(Origins(m.log))))
  {
    var s := Start(queueSlots, slotBytes);
    PartialsPatchTheirPredecessor(queueSlots, slotBytes, acts, script);
    BlankExact(queueSlots, slotBytes);
    RunExact(s, acts, script);
    RunSteady(s, acts, script);
    var m := After(s, acts, script).m;
    hide After, Heard, Origins, ScreenOf;
    assert Geometry(m);
    ScreenFollows(m.log, m.hist);
  }

  lemma {:induction false} CallsSteady(m: Sender, acts: seq<Action>, script: Script)
    requires Exact(Split(m, Outside)) && Steady(m) && LegalCalls(acts)
    ensures Steady(Calls(m, acts, script))
    decreases |acts|
  {
    hide Steady, Call;
    if acts != [] {
      assert LegalCall(acts[0]);
      CallExact(m, acts[0], script);
      CallSteady(m, acts[0], script);
      CallsSteady(Call(m, acts[0], script), acts[1..], script);
    }
  }

  lemma {:induction false} TicksSteady(s: Split, n: nat, script: Script)
    requires Inv(s) && Steady(s.m) && Plain(s) && CalmTicks(s, n, script)
    ensures Steady(Ticks(s, n, script).m)
    decreases n
  {
    if n > 0 {
      PlainKept(s, Tick, script);
      StepKeeps(s, script);
      StepSteady(s, script);
      TicksSteady(Step(s, script), n - 1, script);
    }
  }

  lemma CallSteady(m: Sender, a: Action, script: Script)
    requires Inv(Split(m, Outside)) && Legal(Split(m, Outside), a) && Steady(m)
    ensures Steady(Call(m, a, script))
  {
    if a.Tick? {
      var n := PumpIsItsSteps(m, script);
      TicksSteady(Split(m, Outside), n, script);
    } else {
      ActSteady(Split(m, Outside), a, script);
    }
  }

  /** The same with pump as one call, for every schedule. */
  lemma ScreenShowsTheUiUninterrupted(queueSlots: nat, slotBytes: nat, acts: seq<Action>, script: Script)
    requires Honest(script) && LegalCalls(acts)
    requires AllRepresentable(Calls(SenderState.Blank(queueSlots, slotBytes), acts, script).hist)
    ensures var m := Calls(SenderState.Blank(queueSlots, slotBytes), acts, script);
            && (ScreenOf(m.log).Image? <==> Heard(m.log).hasBase)
            && (ScreenOf(m.log).Image? ==>
                  Origins(m.log) != [] && ShowsSomeRun(ScreenOf(m.log), m.hist, Base(Origins(m.log))))
  {
    UninterruptedRuns(queueSlots, slotBytes, acts, script);
    BlankExact(queueSlots, slotBytes);
    CallsExact(SenderState.Blank(queueSlots, slotBytes), acts, script);
    CallsSteady(SenderState.Blank(queueSlots, slotBytes), acts, script);
    var m := Calls(SenderState.Blank(queueSlots, slotBytes), acts, script);
    hide Calls, Heard, Origins, ScreenOf;
    assert Geometry(m);
    ScreenFollows(m.log, m.hist);
  }

  // ---- pixel for pixel ----

  lemma {:induction false} UiRectsSplit(hist: seq<Frame>, j: nat, k: nat)
    requires j <= k <= |hist|
    ensures UiRects(hist, 0, k) == UiRects(hist, 0, j) + UiRects(hist, j, k)
    decreases k
  {
    if j < k {
      UiRectsSplit(hist, j, k - 1);
    }
  }

  lemma {:induction false} UiRectsStart(hist: seq<Frame>, j: nat, k: nat)
    requires j < k <= |hist|
    ensures hist[j].rects <= UiRects(hist, j, k)
    decreases k
  {
    if j < k - 1 {
      UiRectsStart(hist, j, k - 1);
    } else {
      assert UiRects(hist, j, k) == [] + hist[j].rects;
    }
  }

  /** Wherever the FULL frame paints, the screen has the colour the UI drew last, counting everything it ever drew up
      to the last committed frame: if the FULL frame repaints the whole screen, the image is the UI's picture. */
  lemma PixelIsTheUis(s: Shown, hist: seq<Frame>, j: nat, k: nat, px: int, py: int)
    requires ShowsRun(s, hist, j, k)
    requires exists i | 0 <= i < |hist[j].rects| :: Paints(hist[j].rects[i], s.width, s.height, px, py)
    ensures Colour(s.drawn, s.width, s.height, px, py) == Colour(UiRects(hist, 0, k + 1), s.width, s.height, px, py)
  {
    UiRectsStart(hist, j, k + 1);
    UiRectsSplit(hist, j, k + 1);
    var i :| 0 <= i < |hist[j].rects| && Paints(hist[j].rects[i], s.width, s.height, px, py);
    assert s.drawn[i] == hist[j].rects[i];
    ColourForgets(UiRects(hist, 0, j), s.drawn, s.width, s.height, px, py);
  }
}
