/** The sender's side of the PARTIAL rule, for every sink: a FRAME_BEGIN(PARTIAL) goes out only if the frame before it,
    by id, was closed in the same session by an end the sink accepted. */
module Bases {
  import opened Wire
  import opened SenderState
  import opened SplitPump
  import opened Fidelity
  import opened Continuity
  import opened Runs

  /** The frame closed by the last accepted, non-aborted end of this session. */
  function Closed(log: seq<Entry>): Option<nat> {
    if log == [] then None
    else
      match log[|log| - 1]
      case SessionReset => None
      case Sent(FrameEnd(_, _, _, false), o, k) => if o.Ok() then Some(k) else Closed(log[..|log| - 1])
      case _ => Closed(log[..|log| - 1])
  }

  lemma ClosedOne(log: seq<Entry>, e: Entry)
    ensures Closed(log + [e]) ==
            if e.SessionReset? then None
            else if e.msg.FrameEnd? && !e.msg.aborted && e.outcome.Ok() then Some(e.frame)
            else Closed(log)
  {
    assert (log + [e])[..|log|] == log;
  }

  /** The beginning logged at i is one of a UI frame, and a PARTIAL one follows a closed frame directly. */
  ghost predicate BeginRests(log: seq<Entry>, i: nat, hist: seq<Frame>)
    requires i < |log|
  {
    log[i].Sent? && log[i].msg.FrameBegin? ==>
      var k, msg := log[i].frame, log[i].msg;
      && k < |hist| && msg.id == hist[k].id == (k + 1) % 0x1_0000 && msg.ftype == hist[k].ftype
      && (msg.ftype == Partial ==> k > 0 && Closed(log[..i]) == Some(k - 1))
  }

  ghost predicate BeginsRest(log: seq<Entry>, hist: seq<Frame>) {
    forall i | 0 <= i < |log| :: BeginRests(log, i, hist)
  }

  /** A PARTIAL frame whose FRAME_BEGIN is still to come. */
  predicate BeginWaits(m: Sender) {
    m.hist != [] && Last(m.hist).ftype == Partial && InFlight(m) && Left(m) == 0 && m.abortPending.None?
  }

  /** A new session does not find such a frame of the old one. */
  predicate Tidy(s: Split, a: Action, script: Script)
    requires Legal(s, a)
  {
    Quiet(s, a, script) && (a.Connect? ==> !BeginWaits(s.m))
  }

  /** Where the base of the next PARTIAL frame, or of one not yet begun, comes from. */
  ghost predicate BaseKnown(s: Split, script: Script) {
    var m, c, n := s.m, Closed(s.m.log), |s.m.hist|;
    var gap := s.pc.Ending? && s.pc.frame == n - 2;
    && (m.abortPending.Some? ==> m.needFull)
    && (!m.needFull && !InFlight(m) && !s.pc.Ending? ==> n > 0 && c == Some(n - 1))
    && (n > 0 && Last(m.hist).ftype == Partial && InFlight(m) && Left(m) == 0 && (m.abortPending.None? || s.pc.Taken?) ==>
          n > 1 && if gap then s.pc.closing.CommitEnd? && script(|m.log|).Ok() else c == Some(n - 2))
    && (s.pc.Ending? && !gap && !m.needFull ==> s.pc.closing.CommitEnd?)
    && (gap ==> InFlight(m))
    && (c.Some? ==>
          && c.value < n && (c.value == n - 1 ==> !m.wire.open && Left(m) > 0)
          && (s.pc.Ending? ==> c.value < s.pc.frame))
  }

  ghost predicate Based(s: Split, script: Script) {
    Inv(s) && BaseKnown(s, script) && BeginsRest(s.m.log, s.m.hist)
  }

  lemma BlankBased(queueSlots: nat, slotBytes: nat, script: Script)
    ensures Based(Split(Blank(queueSlots, slotBytes), Outside), script)
  {
    BlankInv(queueSlots, slotBytes);
  }

  /** A frame keeps its id and type for good. */
  ghost predicate SameIds(hist: seq<Frame>, hist': seq<Frame>) {
    |hist| <= |hist'| && forall k | 0 <= k < |hist| :: hist'[k].id == hist[k].id && hist'[k].ftype == hist[k].ftype
  }

  lemma BeginsKept(log: seq<Entry>, hist: seq<Frame>, hist': seq<Frame>)
    requires BeginsRest(log, hist) && SameIds(hist, hist')
    ensures BeginsRest(log, hist')
  {
    forall i | 0 <= i < |log| ensures BeginRests(log, i, hist') {
      assert BeginRests(log, i, hist);
    }
  }

  lemma BeginsAppend(log: seq<Entry>, e: Entry, hist: seq<Frame>)
    requires BeginsRest(log, hist) && BeginRests(log + [e], |log|, hist)
    ensures BeginsRest(log + [e], hist)
  {
    forall i | 0 <= i < |log| ensures BeginRests(log + [e], i, hist) {
      assert BeginRests(log, i, hist) && (log + [e])[..i] == log[..i];
    }
  }

  // ---- UI and session calls ----

  lemma WriteBased(s: Split, x: int, y: int, w: int, h: int, px: Option<seq<byte>>, script: Script)
    requires Based(s, script) && Legal(s, Write(x, y, w, h, px)) && Quiet(s, Write(x, y, w, h, px), script)
    ensures Based(Split(WriteRect(s.m, x, y, w, h, px).1, s.pc), script)
  {
    hide Bytes, SlotOf, HistIds, Closed, BeginsRest, Enqueue, StartFrame;
    var m, m' := s.m, WriteRect(s.m, x, y, w, h, px).1;
    WriteKeeps(m, x, y, w, h, px, s.pc);
    WriteCases(m, x, y, w, h, px);
    if w > 0 && h > 0 && px.Some? {
      var r := RectOf(x, y, w, h, px);
      if m.building && m.hist != [] {
        EnqueueEffect(m, r);
        EnqueueIds(m, r);
      } else if m.queue == [] {
        StartEffect(m, r);
      }
    }
    hide WriteRect;
    BeginsKept(m.log, m.hist, m'.hist);
  }

  lemma EnqueueIds(m: Sender, r: Rect)
    ensures SameIds(m.hist, Enqueue(m, r).hist)
  {
  }

  lemma FlagsBased(s: Split, m': Sender, script: Script)
    requires Based(s, script) && Inv(Split(m', s.pc)) && m'.log == s.m.log
    requires |m'.hist| == |s.m.hist| && SameIds(s.m.hist, m'.hist)
    requires m'.needFull || (m'.needFull == s.m.needFull && m'.abortPending == s.m.abortPending)
    requires (InFlight(s.m) ==> InFlight(m')) || (s.pc.Outside? && m'.needFull && !InFlight(m'))
    requires Left(m') >= Left(s.m) && (m'.wire.open ==> s.m.wire.open)
    requires InFlight(m') ==>
               && Left(m') == Left(s.m) && (m'.abortPending.None? ==> s.m.abortPending.None?)
               && (!InFlight(s.m) ==> m'.needFull && Left(m') > 0)
    ensures Based(Split(m', s.pc), script)
  {
    BeginsKept(s.m.log, s.m.hist, m'.hist);
    hide Current, WireIsCurrent, Closed, BeginsRest;
  }

  lemma FlushBased(s: Split, script: Script)
    requires Based(s, script)
    ensures Based(Split(Flush(s.m), s.pc), script)
  {
    FlushKeeps(s.m, s.pc);
    hide Inv, BaseKnown, BeginsRest;
    FlagsBased(s, Flush(s.m), script);
  }

  lemma DropBased(s: Split, script: Script)
    requires Based(s, script)
    ensures Based(Split(DropPendingFrame(s.m), s.pc), script)
  {
    DropKeeps(s.m, s.pc);
    assert InFlight(DropPendingFrame(s.m)) && !InFlight(s.m) ==> Left(s.m) > 0 by {
      hide Bytes, HistIds, SlotOf;
    }
    hide Inv, BaseKnown, BeginsRest;
    FlagsBased(s, DropPendingFrame(s.m), script);
  }

  lemma ClearBased(m: Sender, script: Script)
    requires Based(Split(m, Outside), script)
    ensures Based(Split(ClearFrame(m), Outside), script)
  {
    ClearKeeps(m);
    hide Inv, BaseKnown, BeginsRest;
    FlagsBased(Split(m, Outside), ClearFrame(m), script);
  }

  lemma QuietBased(m: Sender, m': Sender, script: Script)
    requires Based(Split(m, Outside), script) && Inv(Split(m', Outside))
    requires m' == m.(width := m'.width, height := m'.height, enabled := m'.enabled, connected := m'.connected,
                      needFull := m'.needFull, stats := m'.stats, log := m'.log)
    requires (m'.log == m.log && m'.needFull == m.needFull)
             || (m'.log == m.log + [SessionReset] && m'.needFull && !BeginWaits(m))
    ensures Based(Split(m', Outside), script)
  {
    ClosedOne(m.log, SessionReset);
    BeginsAppend(m.log, SessionReset, m.hist);
    hide Inv, Closed, BeginsRest;
  }

  lemma SessionBased(m: Sender, a: Action, script: Script)
    requires Based(Split(m, Outside), script) && Session(a) && (a.Connect? ==> !BeginWaits(m))
    ensures Based(Act(Split(m, Outside), a, script), script)
  {
    SessionKeeps(m, a, script);
    hide Based, Inv;
    match a
    case Connect => QuietBased(m, OnConnected(m), script);
    case Enable(on) =>
      if on {
        QuietBased(m, SetEnabled(m, on), script);
      } else {
        ClearBased(m, script);
        QuietBased(ClearFrame(m), SetEnabled(m, on), script);
      }
    case Disconnect =>
      if m.connected {
        ClearBased(m, script);
        QuietBased(ClearFrame(m), OnDisconnected(m), script);
      }
    case Configure(w, h, rgb) =>
      if Init(m, w, h, rgb).0 == Ok {
        ClearBased(m, script);
        QuietBased(ClearFrame(m), Init(m, w, h, rgb).1, script);
      }
  }

  // ---- pump steps ----

  lemma BeginBased(s: Split, script: Script)
    requires Based(s, script) && s.pc.Taken?
    ensures Based(Step(s, script), script)
  {
    var m, held, s' := s.m, s.pc.held, Step(s, script);
    BeginKeeps(s, script);
    HeldIsNext(s);
    if held.isFirst {
      var msg := FrameBegin(held.id, held.ftype, m.width % 0x1_0000, m.height % 0x1_0000);
      var e := Sent(msg, Fate(msg, script(|m.log|)), Tag(m));
      assert s'.m.log == m.log + [e] && InFlight(m);
      assert (m.log + [e])[..|m.log|] == m.log;
      hide Bytes, SlotOf, Fate, Closed, BeginsRest, QueueIsTail, WireIsCurrent;
      ClosedOne(m.log, e);
      assert BeginRests(m.log + [e], |m.log|, m.hist);
      BeginsAppend(m.log, e, m.hist);
    }
  }

  lemma RectBased(s: Split, script: Script)
    requires Based(s, script) && s.pc.Begun?
    ensures Based(Step(s, script), script)
  {
    var m, held, s' := s.m, s.pc.held, Step(s, script);
    RectKeeps(s, script);
    if s.pc.active {
      var msg := FrameRect(Rect(held.x, held.y, held.w, held.h, m.queue[0].rect.pixels));
      var e := Sent(msg, Fate(msg, script(|m.log|)), Tag(m));
      assert s'.m.log == m.log + [e] && s'.m.hist == m.hist;
      assert InFlight(s'.m) == InFlight(m) && Left(s'.m) == Left(m) && (s'.m.abortPending.None? ==> m.abortPending.None?);
      assert s'.m.needFull || (s'.m.needFull == m.needFull && s'.m.abortPending == m.abortPending);
      hide Inv, Fate, Closed, BeginsRest, SendRect;
      ClosedOne(m.log, e);
      BeginsAppend(m.log, e, m.hist);
    }
  }

  lemma EndBased(s: Split, script: Script)
    requires Based(s, script) && s.pc.Ending?
    ensures Based(Step(s, script), script)
  {
    hide Bytes, SlotOf, HistIds, CountFrame, BeginsRest, Closed;
    var m, c, k, s' := s.m, s.pc.closing, s.pc.frame, Step(s, script);
    EndKeeps(s, script);
    var e := Sent(EndMessage(c), Fate(EndMessage(c), script(|m.log|)), k);
    assert EndingOk(m, c, k);
    assert Left(s'.m) == Left(m) && (k == |m.hist| - 1 ==> Left(m) > 0);
    assert s'.m == m.(log := m.log + [e], needFull := s'.m.needFull, stats := s'.m.stats);
    assert s'.m.needFull <==> m.needFull || !e.outcome.Ok();
    assert e.outcome == script(|m.log|);
    hide Inv, Fate, Closed, BeginsRest, SendEnd;
    ClosedOne(m.log, e);
    BeginsAppend(m.log, e, m.hist);
  }

  lemma QueueBased(s: Split, script: Script)
    requires Based(s, script) && (s.pc.Streamed? || s.pc.Looked?)
    ensures Based(Step(s, script), script)
  {
    StepKeeps(s, script);
    var m, m' := s.m, Step(s, script).m;
    assert m'.log == m.log && m'.hist == m.hist && InFlight(m') == InFlight(m) && m'.needFull == m.needFull
           && m'.abortPending == m.abortPending && !Step(s, script).pc.Ending?;
    assert Left(m') > 0 || (Left(m') == Left(m) && m.abortPending.None?) by {
      assert SlotOf(m, 0);
    }
    hide Inv, Closed, BeginsRest;
  }

  lemma CloseBased(s: Split, script: Script)
    requires Based(s, script) && Deciding(s) && !Strands(s)
    ensures Based(AfterClosing(s.m, CloseOut(s.m)), script)
  {
    CloseKeeps(s);
    var m, s' := s.m, AfterClosing(s.m, CloseOut(s.m));
    assert s'.pc.Ending? ==> s'.pc.frame == |m.hist| - 1 >= 0;
    hide Current, QueueIsTail, WireIsCurrent, Closed, BeginsRest;
  }

  lemma StepBased(s: Split, script: Script)
    requires Based(s, script) && Tame(s, Tick)
    ensures Based(Step(s, script), script)
  {
    match s.pc
    case Outside => if s.m.queue == [] { CloseBased(s, script); } else { StepKeeps(s, script); }
    case Taken(_) => BeginBased(s, script);
    case Begun(_, _) => RectBased(s, script);
    case Popped => CloseBased(s, script);
    case Ending(_, _) => EndBased(s, script);
    case _ => QueueBased(s, script);
  }

  lemma ActBased(s: Split, a: Action, script: Script)
    requires Based(s, script) && Legal(s, a) && Tame(s, a) && Tidy(s, a, script)
    ensures Based(Act(s, a, script), script)
  {
    match a
    case Tick => StepBased(s, script);
    case Write(x, y, w, h, px) => WriteBased(s, x, y, w, h, px, script);
    case FlushFrame => FlushBased(s, script);
    case Drop => DropBased(s, script);
    case _ => SessionBased(s.m, a, script);
  }

  // ---- whole runs ----

  ghost predicate TidyRun(s: Split, acts: seq<Action>, script: Script)
    requires Plain(s) && LegalRun(s, acts, script)
    decreases |acts|
  {
    acts != [] ==>
      && Tidy(s, acts[0], script)
      && (PlainKept(s, acts[0], script); TidyRun(Act(s, acts[0], script), acts[1..], script))
  }

  lemma {:induction false} RunBased(s: Split, acts: seq<Action>, script: Script)
    requires Based(s, script) && Plain(s) && LegalRun(s, acts, script)
    requires TameRun(s, acts, script) && TidyRun(s, acts, script)
    ensures Based(After(s, acts, script), script)
    decreases |acts|
  {
    hide Based, Plain;
    if acts != [] {
      ActBased(s, acts[0], script);
      PlainKept(s, acts[0], script);
      RunBased(Act(s, acts[0], script), acts[1..], script);
    }
  }

  /** About the sender alone: whatever fails and however UI calls interleave, a PARTIAL frame is only
      begun when the frame with the preceding id was closed by an end the sink accepted in this session. */
  lemma PartialsFollowAClosedFrame(queueSlots: nat, slotBytes: nat, acts: seq<Action>, script: Script)
    requires LegalRun(Start(queueSlots, slotBytes), acts, script)
    requires TameRun(Start(queueSlots, slotBytes), acts, script) && TidyRun(Start(queueSlots, slotBytes), acts, script)
    ensures var m := After(Start(queueSlots, slotBytes), acts, script).m; BeginsRest(m.log, m.hist)
  {
    BlankBased(queueSlots, slotBytes, script);
    RunBased(Start(queueSlots, slotBytes), acts, script);
  }

  lemma {:induction false} TicksBased(s: Split, n: nat, script: Script)
    requires Based(s, script) && Plain(s) && CalmTicks(s, n, script)
    ensures Based(Ticks(s, n, script), script)
    decreases n
  {
    hide Based, Plain;
    if n > 0 {
      StepBased(s, script);
      PlainKept(s, Tick, script);
      TicksBased(Step(s, script), n - 1, script);
    }
  }

  lemma CallBased(m: Sender, a: Action, script: Script)
    requires Based(Split(m, Outside), script) && LegalCall(a) && (a.Connect? ==> !BeginWaits(m))
    ensures Based(Split(Call(m, a, script), Outside), script)
  {
    hide BaseKnown, BeginsRest;
    if a.Tick? {
      var n := PumpIsItsSteps(m, script);
      TicksBased(Split(m, Outside), n, script);
    } else {
      ActBased(Split(m, Outside), a, script);
    }
  }

  predicate TidyCalls(m: Sender, acts: seq<Action>, script: Script)
    requires LegalCalls(acts)
    decreases |acts|
  {
    acts != [] ==>
      && (acts[0].Connect? ==> !BeginWaits(m))
      && (assert LegalCall(acts[0]); TidyCalls(Call(m, acts[0], script), acts[1..], script))
  }

  lemma {:induction false} CallsBased(m: Sender, acts: seq<Action>, script: Script)
    requires Based(Split(m, Outside), script) && LegalCalls(acts) && TidyCalls(m, acts, script)
    ensures Based(Split(Calls(m, acts, script), Outside), script)
    decreases |acts|
  {
    hide Based, Call;
    if acts != [] {
      assert LegalCall(acts[0]);
      CallBased(m, acts[0], script);
      CallsBased(Call(m, acts[0], script), acts[1..], script);
    }
  }

  /** With pump as one call the only condition left is that a new session finds no PARTIAL frame yet to be begun. */
  lemma UninterruptedBegins(queueSlots: nat, slotBytes: nat, acts: seq<Action>, script: Script)
    requires LegalCalls(acts) && TidyCalls(Blank(queueSlots, slotBytes), acts, script)
    ensures var m := Calls(Blank(queueSlots, slotBytes), acts, script); BeginsRest(m.log, m.hist)
  {
    BlankBased(queueSlots, slotBytes, script);
    CallsBased(Blank(queueSlots, slotBytes), acts, script);
  }

  // ---- the start of a session, exactly ----

  /** After onConnected the next three steps of pump offer a beginning that rests on nothing exactly if the frame in
      flight is PARTIAL and has not been begun. */
  lemma OldBeginIff(m: Sender, script: Script)
    requires Inv(Split(m, Outside))
    ensures var m1 := OnConnected(m);
            BeginWaits(m) <==>
              && m.queue != [] && !HeadAborted(m)
              && Step(Step(Split(m1, Outside), script), script) == Split(m1, Taken(Hold(m.queue[0])))
              && var log := Step(Split(m1, Taken(Hold(m.queue[0]))), script).m.log;
                 |log| > |m1.log| && log[..|m1.log|] == m1.log && !BeginRests(log, |m1.log|, m.hist)
  {
    hide Bytes, Fate;
    var m1 := OnConnected(m);
    if m.queue != [] {
      assert SlotOf(m, 0);
      ClosedOne(m.log, SessionReset);
    }
  }

  // ---- a frame opened while an end is being sent, exactly ----

  lemma GapOpens(s: Split, a: Action, script: Script)
    requires Based(s, script) && s.pc.Ending? && Legal(s, a) && OpensPartial(s, a)
    ensures s.pc.frame == |s.m.hist| - 1 && s.pc.closing.CommitEnd?
    ensures Closed(s.m.log) != Some(s.pc.frame)
    ensures var s1 := Act(s, a, script);
            var m1 := s1.m;
            && Inv(s1) && s1.pc == s.pc && m1.log == s.m.log && m1.abortPending.None?
            && |m1.hist| == |s.m.hist| + 1 && Last(m1.hist).ftype == Partial
            && |m1.queue| == 1 && m1.queue[0].isFirst
  {
    hide Bytes, SlotOf, HistIds, Closed, BeginsRest;
    WriteKeeps(s.m, a.x, a.y, a.w, a.h, a.px, s.pc);
    WriteCases(s.m, a.x, a.y, a.w, a.h, a.px);
    hide WriteRect;
  }

  /** The next three steps of pump with the first slot of a frame queued and no abort. */
  lemma NextBegins(m: Sender, script: Script)
    requires Inv(Split(m, Outside)) && m.queue != [] && m.queue[0].isFirst && m.abortPending.None?
    ensures Step(Step(Split(m, Outside), script), script) == Split(m, Taken(Hold(m.queue[0])))
    ensures var log := Step(Split(m, Taken(Hold(m.queue[0]))), script).m.log;
            && |log| == |m.log| + 1 && log[..|m.log|] == m.log
            && (BeginRests(log, |m.log|, m.hist) <==>
                  (Last(m.hist).ftype == Partial ==> |m.hist| > 1 && Closed(m.log) == Some(|m.hist| - 2)))
  {
    hide Bytes, Fate, Closed;
    assert SlotOf(m, 0);
  }

  /** A PARTIAL frame opened in the gap of an end: the beginning pump offers next rests on a closed frame exactly if
      that end is accepted. */
  lemma GapBeginIff(s: Split, a: Action, script: Script)
    requires Based(s, script) && s.pc.Ending? && Legal(s, a) && OpensPartial(s, a)
    ensures var s1 := Act(s, a, script);
            Inv(s1) &&
            var m2 := Step(s1, script).m;
            && m2.queue != [] && Step(s1, script) == Split(m2, Outside)
            && Step(Step(Split(m2, Outside), script), script) == Split(m2, Taken(Hold(m2.queue[0])))
            && var log := Step(Split(m2, Taken(Hold(m2.queue[0]))), script).m.log;
               && |log| == |m2.log| + 1 && log[..|m2.log|] == m2.log
               && (BeginRests(log, |m2.log|, m2.hist) <==> script(|s.m.log|).Ok())
  {
    hide Based, Inv, Act, SendEnd, Fate, BeginRests;
    GapOpens(s, a, script);
    var m1, c, k := Act(s, a, script).m, s.pc.closing, s.pc.frame;
    EndKeeps(Split(m1, s.pc), script);
    EndEffect(m1, script, c, k);
    EndAnswer(m1, script, c, k);
    NextBegins(SendEnd(m1, script, c, k), script);
  }

  lemma EndAnswer(m: Sender, script: Script, c: Closing, k: nat)
    requires c.CommitEnd?
    ensures Closed(SendEnd(m, script, c, k).log) == if script(|m.log|).Ok() then Some(k) else Closed(m.log)
  {
    hide Closed;
    ClosedOne(m.log, Sent(EndMessage(c), script(|m.log|), k));
  }
}
