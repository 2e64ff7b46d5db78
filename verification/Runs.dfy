/** Whole runs: any interleaving of UI calls with the steps of pump, and runs with pump as one call. */
module Runs {
  import opened Wire
  import opened SenderState
  import opened SplitPump
  import opened FrameAssembly
  import opened Fidelity
  import opened Continuity
  import opened Accounting

  // ---- interleaved runs ----

  lemma PlainKept(s: Split, a: Action, script: Script)
    requires Plain(s) && Legal(s, a)
    ensures Plain(Act(s, a, script))
  {
    hide SendBegin, SendRect, SendEnd;
    if s.pc.Taken? {
      BeginLeaves(s.m, script, s.pc.held);
    } else if s.pc.Begun? {
      RectLeaves(s.m, script, s.pc.held);
    }
  }

  ghost predicate LegalRun(s: Split, acts: seq<Action>, script: Script)
    requires Plain(s)
    decreases |acts|
  {
    acts != [] ==>
      Legal(s, acts[0]) && (PlainKept(s, acts[0], script); LegalRun(Act(s, acts[0], script), acts[1..], script))
  }

  ghost function After(s: Split, acts: seq<Action>, script: Script): (r: Split)
    requires Plain(s) && LegalRun(s, acts, script)
    ensures Plain(r)
    decreases |acts|
  {
    if acts == [] then s
    else PlainKept(s, acts[0], script); After(Act(s, acts[0], script), acts[1..], script)
  }

  /** No step strands the first slot of an aborted frame. */
  ghost predicate TameRun(s: Split, acts: seq<Action>, script: Script)
    requires Plain(s) && LegalRun(s, acts, script)
    decreases |acts|
  {
    acts != [] ==>
      && Tame(s, acts[0])
      && (PlainKept(s, acts[0], script); TameRun(Act(s, acts[0], script), acts[1..], script))
  }

  /** ... nor sends an end over a queue that has been refilled. */
  ghost predicate CalmRun(s: Split, acts: seq<Action>, script: Script)
    requires Plain(s) && LegalRun(s, acts, script)
    decreases |acts|
  {
    acts != [] ==>
      && Calm(s, acts[0])
      && (PlainKept(s, acts[0], script); CalmRun(Act(s, acts[0], script), acts[1..], script))
  }

  /** No PARTIAL frame is opened while an end is being sent in vain. */
  ghost predicate QuietRun(s: Split, acts: seq<Action>, script: Script)
    requires Plain(s) && LegalRun(s, acts, script)
    decreases |acts|
  {
    acts != [] ==>
      && Quiet(s, acts[0], script)
      && (PlainKept(s, acts[0], script); QuietRun(Act(s, acts[0], script), acts[1..], script))
  }

  lemma {:induction false} CalmIsTame(s: Split, acts: seq<Action>, script: Script)
    requires Plain(s) && LegalRun(s, acts, script) && CalmRun(s, acts, script)
    ensures TameRun(s, acts, script)
    decreases |acts|
  {
    if acts != [] {
      PlainKept(s, acts[0], script);
      CalmIsTame(Act(s, acts[0], script), acts[1..], script);
    }
  }

  lemma {:induction false} RunKeeps(s: Split, acts: seq<Action>, script: Script)
    requires Inv(s) && Plain(s) && LegalRun(s, acts, script) && TameRun(s, acts, script)
    ensures Inv(After(s, acts, script))
    decreases |acts|
  {
    hide Inv, Plain;
    if acts != [] {
      ActKeeps(s, acts[0], script);
      PlainKept(s, acts[0], script);
      RunKeeps(Act(s, acts[0], script), acts[1..], script);
    }
  }

  lemma {:induction false} RunExact(s: Split, acts: seq<Action>, script: Script)
    requires Exact(s) && Plain(s) && LegalRun(s, acts, script) && CalmRun(s, acts, script)
    ensures Exact(After(s, acts, script))
    decreases |acts|
  {
    hide Exact, Plain;
    if acts != [] {
      ActExact(s, acts[0], script);
      PlainKept(s, acts[0], script);
      RunExact(Act(s, acts[0], script), acts[1..], script);
    }
  }

  lemma {:induction false} RunSound(s: Split, acts: seq<Action>, script: Script)
    requires Sound(s, script) && Honest(script) && Plain(s) && LegalRun(s, acts, script)
    requires CalmRun(s, acts, script) && QuietRun(s, acts, script)
    ensures Sound(After(s, acts, script), script)
    decreases |acts|
  {
    hide Sound, Plain;
    if acts != [] {
      ActSound(s, acts[0], script);
      PlainKept(s, acts[0], script);
      RunSound(Act(s, acts[0], script), acts[1..], script);
    }
  }

  function Start(queueSlots: nat, slotBytes: nat): (s: Split)
    ensures Plain(s) && Inv(s)
  {
    BlankInv(queueSlots, slotBytes);
    Split(Blank(queueSlots, slotBytes), Outside)
  }

  // ---- what both sides share ----

  /** No writeRect, flush or dropPendingFrame in a gap of pump touches a slot already queued, the one being sent first
      of all: from any state whatever. */
  lemma GapKeepsTheQueue(s: Split, a: Action, script: Script)
    requires Plain(s) && Legal(s, a) && !a.Tick? && !Session(a)
    ensures s.m.queue <= Act(s, a, script).m.queue
    ensures !a.Write? ==> Act(s, a, script).m.queue == s.m.queue
  {
  }

  predicate OfOneFrame(m: Sender) { forall i | 0 <= i < |m.queue| :: m.queue[i].id == m.frameId }

  lemma ActOfOneFrame(s: Split, a: Action, script: Script)
    requires Plain(s) && Legal(s, a) && OfOneFrame(s.m)
    ensures OfOneFrame(Act(s, a, script).m)
  {
    hide Step, ClearFrame;
    if a.Tick? {
      StepOfOneFrame(s, script);
    }
    ClearEffect(s.m);
  }

  lemma StepOfOneFrame(s: Split, script: Script)
    requires Plain(s) && OfOneFrame(s.m)
    ensures OfOneFrame(Step(s, script).m)
  {
    hide SendBegin, SendRect, SendEnd;
    if s.pc.Taken? {
      BeginEffect(s.m, script, s.pc.held);
    } else if s.pc.Begun? {
      SendRectEffect(s.m, script, s.pc.held);
    } else if s.pc.Ending? {
      EndEffect(s.m, script, s.pc.closing, s.pc.frame);
    }
  }

  /** At every point of every run, raced or not, all queued slots belong to the current frame. */
  lemma {:induction false} QueueIsOfOneFrame(s: Split, acts: seq<Action>, script: Script)
    requires OfOneFrame(s.m) && Plain(s) && LegalRun(s, acts, script)
    ensures OfOneFrame(After(s, acts, script).m)
    decreases |acts|
  {
    hide OfOneFrame, Plain;
    if acts != [] {
      ActOfOneFrame(s, acts[0], script);
      PlainKept(s, acts[0], script);
      QueueIsOfOneFrame(Act(s, acts[0], script), acts[1..], script);
    }
  }

  /** Queued slots whose rectangle has not been handed to the sink yet. */
  function Unsent(s: Split): seq<Slot>
    requires HeadPresent(s)
  {
    if s.pc.Streamed? then s.m.queue[1..] else s.m.queue
  }

  function SlotBytes(queue: seq<Slot>): nat {
    if queue == [] then 0 else |queue[0].rect.pixels| + SlotBytes(queue[1..])
  }

  lemma {:induction false} BytesOfTail(rects: seq<Rect>, n: nat, queue: seq<Slot>)
    requires n + |queue| == |rects| && forall i | 0 <= i < |queue| :: queue[i].rect == rects[n + i]
    ensures Bytes(rects[..n]) + SlotBytes(queue) == Bytes(rects)
    decreases |queue|
  {
    if queue == [] {
      assert rects[..n] == rects;
    } else {
      BytesStep(rects, n);
      BytesOfTail(rects, n + 1, queue[1..]);
    }
  }

  lemma BalanceOf(s: Split)
    requires Inv(s) && s.m.wire.open && s.m.abortPending.None?
    ensures s.m.wire.rects + |Unsent(s)| == s.m.rectCount && s.m.wire.bytes + SlotBytes(Unsent(s)) == s.m.byteCount
  {
    hide Bytes, SlotBytes, HistIds;
    var m, f := s.m, Last(s.m.hist);
    forall i | 0 <= i < |Unsent(s)| ensures Unsent(s)[i].rect == f.rects[SentCount(s) + i] {
      assert SlotOf(m, if s.pc.Streamed? then i + 1 else i);
    }
    BytesOfTail(f.rects, SentCount(s), Unsent(s));
  }

  /** At every point of every tame run: queued slots and a pending abort name the current frame; a frame open on the
      wire is the current one, still being built, end-queued or aborted; and unless it is aborted, what has been
      sent of it and what is queued add up to what writeRect accepted, in rectangles and in bytes. */
  lemma OneFrameAtATime(queueSlots: nat, slotBytes: nat, acts: seq<Action>, script: Script)
    requires LegalRun(Start(queueSlots, slotBytes), acts, script) && TameRun(Start(queueSlots, slotBytes), acts, script)
    ensures var s := After(Start(queueSlots, slotBytes), acts, script);
            var m := s.m;
            && OfOneFrame(m)
            && (m.abortPending.Some? ==> m.abortPending.value == m.frameId)
            && (m.wire.open ==> m.wire.id == m.frameId && (m.building || m.endQueued || m.abortPending.Some?))
            && (m.wire.open && m.abortPending.None? ==>
                  && m.wire.rects + |Unsent(s)| == m.rectCount
                  && m.wire.bytes + SlotBytes(Unsent(s)) == m.byteCount)
  {
    RunKeeps(Start(queueSlots, slotBytes), acts, script);
    var s := After(Start(queueSlots, slotBytes), acts, script);
    forall i | 0 <= i < |s.m.queue| ensures s.m.queue[i].id == s.m.frameId {
      assert SlotOf(s.m, i);
    }
    if s.m.wire.open && s.m.abortPending.None? {
      BalanceOf(s);
    }
  }

  /** Main result 1. Whatever the sink does and however UI calls fall between the steps of pump, calmly: what the
      receiver commits are frames of the UI, complete, in order, each flushed and never dropped. */
  lemma CommitsAreUiFrames(queueSlots: nat, slotBytes: nat, acts: seq<Action>, script: Script)
    requires LegalRun(Start(queueSlots, slotBytes), acts, script) && CalmRun(Start(queueSlots, slotBytes), acts, script)
    ensures var m := After(Start(queueSlots, slotBytes), acts, script).m;
            Faithful(Heard(m.log).commits, Origins(m.log), m.hist)
  {
    BlankExact(queueSlots, slotBytes);
    RunExact(Start(queueSlots, slotBytes), acts, script);
  }

  /** Main result 2. If kOk means delivered and counts fit their fields, a committed PARTIAL frame directly
      follows, among the UI's frames, the frame committed before it. */
  lemma PartialsPatchTheirPredecessor(queueSlots: nat, slotBytes: nat, acts: seq<Action>, script: Script)
    requires Honest(script)
    requires LegalRun(Start(queueSlots, slotBytes), acts, script)
    requires CalmRun(Start(queueSlots, slotBytes), acts, script) && QuietRun(Start(queueSlots, slotBytes), acts, script)
    requires AllRepresentable(After(Start(queueSlots, slotBytes), acts, script).m.hist)
    ensures var m := After(Start(queueSlots, slotBytes), acts, script).m;
            Faithful(Heard(m.log).commits, Origins(m.log), m.hist) && Unbroken(Origins(m.log), m.hist)
  {
    BlankSound(queueSlots, slotBytes, script);
    RunSound(Start(queueSlots, slotBytes), acts, script);
  }

  lemma {:induction false} RunBooks(s: Split, acts: seq<Action>, script: Script)
    requires Books(s) && Plain(s) && LegalRun(s, acts, script) && CalmRun(s, acts, script)
    ensures Books(After(s, acts, script))
    decreases |acts|
  {
    hide Books, Plain;
    if acts != [] {
      ActBooks(s, acts[0], script);
      PlainKept(s, acts[0], script);
      RunBooks(Act(s, acts[0], script), acts[1..], script);
    }
  }

  /** The same for the wire itself: every FRAME_END closes the last FRAME_BEGIN accepted by the sink, once, and
      unless aborted carries the counts of exactly the rectangles sent since; the statistics agree with the log. */
  lemma WireIsOrderly(queueSlots: nat, slotBytes: nat, acts: seq<Action>, script: Script)
    requires LegalRun(Start(queueSlots, slotBytes), acts, script) && CalmRun(Start(queueSlots, slotBytes), acts, script)
    ensures var m := After(Start(queueSlots, slotBytes), acts, script).m;
            EndsExact(m.log, m.hist) && StatsAgree(m.stats, CountAll(m.log))
  {
    BlankBooks(queueSlots, slotBytes);
    RunBooks(Start(queueSlots, slotBytes), acts, script);
  }

  // ---- pump as one call ----

  /** n steps of the TX task with nothing in between. */
  function Ticks(s: Split, n: nat, script: Script): Split
    requires Plain(s) && CalmTicks(s, n, script)
    decreases n
  {
    if n == 0 then s else PlainKept(s, Tick, script); Ticks(Step(s, script), n - 1, script)
  }

  predicate CalmTicks(s: Split, n: nat, script: Script)
    requires Plain(s)
    decreases n
  {
    n > 0 ==> Calm(s, Tick) && (PlainKept(s, Tick, script); CalmTicks(Step(s, script), n - 1, script))
  }

  lemma OneMore(s: Split, n: nat, script: Script, end: Split)
    requires Plain(s) && Calm(s, Tick) && Plain(Step(s, script))
    requires CalmTicks(Step(s, script), n, script) && Ticks(Step(s, script), n, script) == end
    ensures CalmTicks(s, n + 1, script) && Ticks(s, n + 1, script) == end
  {
  }

  lemma Arrived(s: Split, script: Script)
    requires Plain(s)
    ensures CalmTicks(s, 0, script) && Ticks(s, 0, script) == s
  {
  }

  /** From a closing decision to the end of pump. */
  lemma TicksAfterClosing(s: Split, script: Script) returns (n: nat)
    requires Plain(s) && (s.pc.Popped? || s.pc.Outside?) && s.m.queue == []
    ensures CalmTicks(s, n, script)
    ensures var (m', c) := CloseOut(s.m);
            Ticks(s, n, script) == Split(if c.Sends() then SendEnd(m', script, c, Tag(s.m)) else m', Outside)
  {
    hide SendEnd;
    var (m', c) := CloseOut(s.m);
    assert Calm(s, Tick);
    PlainKept(s, Tick, script);
    var s1 := Step(s, script);
    assert s1 == AfterClosing(s.m, (m', c));
    assert Tag(m') == Tag(s.m);
    if c.Sends() {
      PlainKept(s1, Tick, script);
      var s2 := Step(s1, script);
      Arrived(s2, script);
      OneMore(s1, 0, script, s2);
      OneMore(s, 1, script, s2);
      n := 2;
    } else {
      Arrived(s1, script);
      OneMore(s, 0, script, s1);
      n := 1;
    }
  }

  /** pump is its own steps: called without interference it does what the interleaved machine does. */
  lemma PumpIsItsSteps(m: Sender, script: Script) returns (n: nat)
    ensures CalmTicks(Split(m, Outside), n, script)
    ensures Ticks(Split(m, Outside), n, script) == Split(Pump(m, script).0, Outside)
  {
    var s := Split(m, Outside);
    if m.queue == [] {
      n := TicksAfterClosing(s, script);
    } else {
      PlainKept(s, Tick, script);
      var s1 := Step(s, script);
      assert s1 == Split(m, Looked);
      PlainKept(s1, Tick, script);
      var s2 := Step(s1, script);
      if HeadAborted(m) {
        Arrived(s2, script);
        OneMore(s1, 0, script, s2);
        OneMore(s, 1, script, s2);
        n := 2;
      } else {
        n := TicksOfSlot(m, script);
        OneMore(s1, n, script, Split(PumpSlot(m, script), Outside));
        OneMore(s, n + 1, script, Split(PumpSlot(m, script), Outside));
        n := n + 2;
      }
    }
  }

  lemma TicksOfSlot(m: Sender, script: Script) returns (n: nat)
    requires m.queue != []
    ensures CalmTicks(Split(m, Taken(Hold(m.queue[0]))), n, script)
    ensures Ticks(Split(m, Taken(Hold(m.queue[0]))), n, script) == Split(PumpSlot(m, script), Outside)
  {
    hide SendBegin, SendRect, SendEnd, CloseOut;
    var held := Hold(m.queue[0]);
    var s2 := Split(m, Taken(held));
    PlainKept(s2, Tick, script);
    var s3 := Step(s2, script);
    var (m3, active) := if held.isFirst then SendBegin(m, script, held) else (m, true);
    assert s3 == Split(m3, Begun(held, active));
    BeginLeaves(m, script, held);
    RectLeaves(m3, script, held);
    PlainKept(s3, Tick, script);
    var s4 := Step(s3, script);
    assert s4.pc == Streamed && s4.m == if active then SendRect(m3, script, held) else m3;
    PlainKept(s4, Tick, script);
    var s5 := Step(s4, script);
    if s5.m.queue == [] {
      n := TicksAfterClosing(s5, script);
    } else {
      Arrived(s5, script);
      n := 0;
    }
    var end := Ticks(s5, n, script);
    assert s5.m == Pop(s4.m) && Tag(s5.m) == Tag(m);
    assert end == Split(PumpSlot(m, script), Outside);
    OneMore(s4, n, script, end);
    OneMore(s3, n + 1, script, end);
    OneMore(s2, n + 2, script, end);
    n := n + 3;
  }

  /** Sending touches neither the queue nor the UI's history. */
  lemma BeginLeaves(m: Sender, script: Script, held: Held)
    ensures var m1 := SendBegin(m, script, held).0; m1.queue == m.queue && m1.hist == m.hist
  {
  }

  lemma RectLeaves(m: Sender, script: Script, held: Held)
    requires m.queue != []
    ensures var m1 := SendRect(m, script, held); m1.queue == m.queue && m1.hist == m.hist
  {
  }

  // ---- runs of whole calls ----

  /** One call at a time: Tick stands for a complete pump. */
  function Call(m: Sender, a: Action, script: Script): Sender
    requires Legal(Split(m, Outside), a)
  {
    if a.Tick? then Pump(m, script).0 else Act(Split(m, Outside), a, script).m
  }

  lemma {:induction false} TicksSound(s: Split, n: nat, script: Script)
    requires Sound(s, script) && Honest(script) && Plain(s) && CalmTicks(s, n, script)
    ensures Sound(Ticks(s, n, script), script)
    decreases n
  {
    if n > 0 {
      StepSound(s, script);
      PlainKept(s, Tick, script);
      TicksSound(Step(s, script), n - 1, script);
    }
  }

  lemma {:induction false} TicksExact(s: Split, n: nat, script: Script)
    requires Exact(s) && Plain(s) && CalmTicks(s, n, script)
    ensures Exact(Ticks(s, n, script))
    decreases n
  {
    if n > 0 {
      StepExact(s, script);
      PlainKept(s, Tick, script);
      TicksExact(Step(s, script), n - 1, script);
    }
  }

  lemma CallExact(m: Sender, a: Action, script: Script)
    requires Exact(Split(m, Outside)) && Legal(Split(m, Outside), a)
    ensures Exact(Split(Call(m, a, script), Outside))
  {
    if a.Tick? {
      var n := PumpIsItsSteps(m, script);
      TicksExact(Split(m, Outside), n, script);
    } else {
      ActExact(Split(m, Outside), a, script);
    }
  }

  lemma CallSound(m: Sender, a: Action, script: Script)
    requires Sound(Split(m, Outside), script) && Honest(script) && Legal(Split(m, Outside), a)
    ensures Sound(Split(Call(m, a, script), Outside), script)
  {
    if a.Tick? {
      var n := PumpIsItsSteps(m, script);
      TicksSound(Split(m, Outside), n, script);
    } else {
      ActSound(Split(m, Outside), a, script);
    }
  }

  predicate LegalCall(a: Action) { a.Write? ==> Readable(a.w, a.h, a.px) }

  predicate LegalCalls(acts: seq<Action>) { forall i | 0 <= i < |acts| :: LegalCall(acts[i]) }

  function Calls(m: Sender, acts: seq<Action>, script: Script): Sender
    requires LegalCalls(acts)
    decreases |acts|
  {
    if acts == [] then m
    else
      assert LegalCall(acts[0]);
      Calls(Call(m, acts[0], script), acts[1..], script)
  }

  lemma {:induction false} CallsExact(m: Sender, acts: seq<Action>, script: Script)
    requires Exact(Split(m, Outside)) && LegalCalls(acts)
    ensures Exact(Split(Calls(m, acts, script), Outside))
    decreases |acts|
  {
    hide Exact, Call;
    if acts != [] {
      assert LegalCall(acts[0]);
      CallExact(m, acts[0], script);
      CallsExact(Call(m, acts[0], script), acts[1..], script);
    }
  }

  lemma {:induction false} CallsSound(m: Sender, acts: seq<Action>, script: Script)
    requires Sound(Split(m, Outside), script) && Honest(script) && LegalCalls(acts)
    ensures Sound(Split(Calls(m, acts, script), Outside), script)
    decreases |acts|
  {
    hide Sound, Call;
    if acts != [] {
      assert LegalCall(acts[0]);
      CallSound(m, acts[0], script);
      CallsSound(Call(m, acts[0], script), acts[1..], script);
    }
  }

  /** Main result 3. With pump as one uninterrupted call both results hold with no condition on the schedule. */
  lemma UninterruptedRuns(queueSlots: nat, slotBytes: nat, acts: seq<Action>, script: Script)
    requires LegalCalls(acts)
    ensures var m := Calls(Blank(queueSlots, slotBytes), acts, script);
            && Faithful(Heard(m.log).commits, Origins(m.log), m.hist)
            && (Honest(script) && AllRepresentable(m.hist) ==> Unbroken(Origins(m.log), m.hist))
  {
    hide Calls;
    BlankExact(queueSlots, slotBytes);
    CallsExact(Blank(queueSlots, slotBytes), acts, script);
    if Honest(script) {
      BlankSound(queueSlots, slotBytes, script);
      CallsSound(Blank(queueSlots, slotBytes), acts, script);
    }
  }
}
