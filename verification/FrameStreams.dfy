/** The frame assembler on any stream whatever of message payloads, decoder errors and session restarts: which messages
    have to come, and what must not come between them, for a frame to be committed. Payloads are read byte by byte. */
module FrameStreams {
  import opened Wire
  import opened FrameAssembly
  import SplitPump

  datatype Input = Received(kind: byte, payload: seq<byte>) | Broken | Restarted

  function Feed(a: Assembler, x: Input): Assembler {
    match x
    case Received(kind, p) => OnMessage(a, kind, p)
    case Broken => OnStreamError(a)
    case Restarted => OnReset(a)
  }

  function FeedAll(xs: seq<Input>): Assembler {
    if xs == [] then FRESH else Feed(FeedAll(xs[..|xs| - 1]), xs[|xs| - 1])
  }

  // ---- payloads ----

  function Low16(p: seq<byte>, i: nat): u16
    requires i + 1 < |p|
  {
    p[i] as int + 256 * p[i + 1] as int
  }

  predicate IsBegin(x: Input) {
    && x.Received? && x.kind == 0x10 && |x.payload| == 12
    && (x.payload[2] == 0 || x.payload[2] == 1) && x.payload[3] == 0
    && 1 <= Low16(x.payload, 4) <= 4096 && 1 <= Low16(x.payload, 6) <= 4096
  }

  function BeginAt(x: Input): BeginInfo
    requires IsBegin(x)
  {
    BeginInfo(Low16(x.payload, 0), if x.payload[2] == 0 then Full else Partial, Low16(x.payload, 4), Low16(x.payload, 6))
  }

  /** A rectangle inside a screen of that size, with all its pixels and nothing else. */
  predicate IsRect(x: Input, width: int, height: int) {
    && x.Received? && x.kind == 0x11 && 8 <= |x.payload| <= 0x10_0000
    && var w, h := Low16(x.payload, 4), Low16(x.payload, 6);
       && w >= 1 && h >= 1 && Low16(x.payload, 0) + w <= width && Low16(x.payload, 2) + h <= height
       && |x.payload| == 8 + 2 * (w * h)
  }

  function RectAt(x: Input): Rect
    requires x.Received? && |x.payload| >= 8
  {
    Rect(Low16(x.payload, 0), Low16(x.payload, 2), Low16(x.payload, 4), Low16(x.payload, 6), x.payload[8..])
  }

  /** Messages that are none of a frame's. */
  predicate IsOther(x: Input) { x.Received? && x.kind != 0x10 && x.kind != 0x11 && x.kind != 0x12 }

  // ---- an open frame ----

  /** The rectangles behind xs[j]. */
  function RectsBehind(xs: seq<Input>, j: nat): seq<Rect>
    decreases |xs|
  {
    if |xs| <= j + 1 then []
    else
      var x := xs[|xs| - 1];
      RectsBehind(xs[..|xs| - 1], j) + if x.Received? && x.kind == 0x11 && |x.payload| >= 8 then [RectAt(x)] else []
  }

  /** A frame begun by xs[j] is still being received: since then only its rectangles and messages that are none of a
      frame's have come, and the counts fit the fields of FRAME_END. */
  ghost predicate OpenSince(xs: seq<Input>, j: int) {
    && 0 <= j < |xs| && IsBegin(xs[j])
    && (forall i | j < i < |xs| :: IsOther(xs[i]) || IsRect(xs[i], BeginAt(xs[j]).width, BeginAt(xs[j]).height))
    && |RectsBehind(xs, j)| <= 0xFFFF && SplitPump.Bytes(RectsBehind(xs, j)) <= 0xFFFF_FFFF
  }

  lemma BeginStep(a: Assembler, x: Input)
    requires x.Received? && x.kind == 0x10
    ensures var a' := Feed(a, x);
            && (a'.state == InFrame <==> IsBegin(x)) && a'.commits == a.commits && a'.hasBase == a.hasBase
            && (IsBegin(x) ==> a'.begin == BeginAt(x) && a'.rects == [] && a'.rectCount == 0 && a'.byteCount == 0)
  {
  }

  lemma RectStep(a: Assembler, x: Input)
    requires x.Received? && x.kind == 0x11 && a.state == InFrame
    ensures var a' := Feed(a, x);
            && a'.commits == a.commits && a'.hasBase == a.hasBase && a'.begin == a.begin
            && (a'.state == InFrame <==>
                  (IsRect(x, a.begin.width, a.begin.height)
                   && a.rectCount < 0xFFFF && a.byteCount + |x.payload| - 8 <= 0xFFFF_FFFF))
            && (a'.state == InFrame ==>
                  && a'.rects == a.rects + [RectAt(x)] && a'.rectCount == a.rectCount + 1
                  && a'.byteCount == a.byteCount + |x.payload| - 8)
  {
  }

  /** What an open frame has collected. */
  ghost predicate Collects(a: Assembler, xs: seq<Input>, j: int)
    requires OpenSince(xs, j)
  {
    var rs := RectsBehind(xs, j);
    && a.state == InFrame && a.begin == BeginAt(xs[j])
    && a.rects == rs && a.rectCount == |rs| && a.byteCount == SplitPump.Bytes(rs)
  }

  lemma OpenBefore(xs: seq<Input>, j: int)
    requires OpenSince(xs, j) && j < |xs| - 1
    ensures var before := xs[..|xs| - 1];
            OpenSince(before, j) && RectsBehind(before, j) <= RectsBehind(xs, j)
  {
    hide SplitPump.Bytes;
    var before := xs[..|xs| - 1];
    assert forall i | 0 <= i < |before| :: before[i] == xs[i];
    RectsGrow(xs, j);
  }

  lemma RectsGrow(xs: seq<Input>, j: int)
    requires 0 <= j < |xs| - 1
    ensures var x, rs := xs[|xs| - 1], RectsBehind(xs[..|xs| - 1], j);
            var isRect := x.Received? && x.kind == 0x11 && |x.payload| >= 8;
            && RectsBehind(xs, j) == (if isRect then rs + [RectAt(x)] else rs)
            && SplitPump.Bytes(RectsBehind(xs, j)) == SplitPump.Bytes(rs) + (if isRect then |x.payload| - 8 else 0)
  {
    var x, rs := xs[|xs| - 1], RectsBehind(xs[..|xs| - 1], j);
    assert rs + [] == rs;
    if x.Received? && x.kind == 0x11 && |x.payload| >= 8 {
      SplitPump.BytesGrow(rs, RectAt(x));
    }
  }

  /** A frame open at xs[j] has been collected rectangle by rectangle. */
  lemma {:induction false} OpenCollects(xs: seq<Input>, j: int)
    requires OpenSince(xs, j)
    ensures Collects(FeedAll(xs), xs, j)
    decreases |xs|
  {
    hide Feed, SplitPump.Bytes;
    var before, x := xs[..|xs| - 1], xs[|xs| - 1];
    if j == |xs| - 1 {
      BeginStep(FeedAll(before), x);
      assert SplitPump.Bytes([]) == 0 by { NoBytes(); }
    } else {
      OpenBefore(xs, j);
      OpenCollects(before, j);
      if IsOther(x) {
        OtherStep(FeedAll(before), x);
      } else {
        RectStep(FeedAll(before), x);
      }
      RectsGrow(xs, j);
    }
  }

  lemma NoBytes()
    ensures SplitPump.Bytes([]) == 0
  {
  }

  lemma OtherStep(a: Assembler, x: Input)
    requires IsOther(x)
    ensures Feed(a, x) == a
  {
  }

  lemma OnlyRectsAndOthersStay(a: Assembler, x: Input)
    requires Feed(a, x).state == InFrame && !IsBegin(x)
    ensures a.state == InFrame && Feed(a, x).begin == a.begin
    ensures IsOther(x) || (IsRect(x, a.begin.width, a.begin.height) && a.rectCount < 0xFFFF
                           && a.byteCount + |x.payload| - 8 <= 0xFFFF_FFFF)
  {
    if x.Received? && x.kind == 0x10 {
      BeginStep(a, x);
    } else if x.Received? && x.kind == 0x11 && a.state == InFrame {
      RectStep(a, x);
    }
    hide OnBegin, ParseRect;
  }

  /** While a frame is being received, there is a beginning it is open since. */
  lemma {:induction false} OpenSinceSome(xs: seq<Input>) returns (j: int)
    requires FeedAll(xs).state == InFrame
    ensures OpenSince(xs, j)
    decreases |xs|
  {
    hide Feed, SplitPump.Bytes;
    var before, x := xs[..|xs| - 1], xs[|xs| - 1];
    if IsBegin(x) {
      j := |xs| - 1;
      NoBytes();
    } else {
      OnlyRectsAndOthersStay(FeedAll(before), x);
      j := OpenSinceSome(before);
      OpenCollects(before, j);
      RectsGrow(xs, j);
      assert forall i | 0 <= i < |before| :: before[i] == xs[i];
    }
  }

  // ---- commits ----

  function Low32(p: seq<byte>, i: nat): u32
    requires i + 3 < |p|
  {
    p[i] as int + 256 * p[i + 1] as int + 65536 * p[i + 2] as int + 16777216 * p[i + 3] as int
  }

  /** A FRAME_END that is not aborted, names the frame and has its counts. */
  predicate EndsFrame(xs: seq<Input>, j: int, x: Input)
    requires 0 <= j < |xs| && IsBegin(xs[j])
  {
    && x.Received? && x.kind == 0x12 && |x.payload| == 9 && x.payload[8] == 0
    && Low16(x.payload, 0) == BeginAt(xs[j]).id && Low16(x.payload, 2) == |RectsBehind(xs, j)|
    && Low32(x.payload, 4) == SplitPump.Bytes(RectsBehind(xs, j))
  }

  /** A frame has been committed since the last restart. */
  predicate HasBase(xs: seq<Input>) {
    xs != [] && !xs[|xs| - 1].Restarted? &&
      (|FeedAll(xs).commits| > |FeedAll(xs[..|xs| - 1]).commits| || HasBase(xs[..|xs| - 1]))
  }

  /** x ends the frame begun by xs[j], with everything in place. */
  ghost predicate Completes(xs: seq<Input>, j: int, x: Input) {
    OpenSince(xs, j) && EndsFrame(xs, j, x) && (BeginAt(xs[j]).ftype == Full || HasBase(xs))
  }

  lemma OtherwiseNoCommit(a: Assembler, x: Input)
    requires a.state != InFrame || !x.Received? || x.kind != 0x12
    ensures Feed(a, x).commits == a.commits && Feed(a, x).hasBase == (a.hasBase && !x.Restarted?)
  {
    hide ParseBegin, ParseRect;
  }

  lemma EndStep(a: Assembler, x: Input)
    requires x.Received? && x.kind == 0x12 && a.state == InFrame
    ensures var a', p := Feed(a, x), x.payload;
            if |p| == 9 && p[8] == 0 && Low16(p, 0) == a.begin.id && Low16(p, 2) == a.rectCount
               && Low32(p, 4) == a.byteCount && (a.begin.ftype == Full || a.hasBase)
            then a'.commits == a.commits + [Committed(a.begin, a.rects)] && a'.hasBase
            else a'.commits == a.commits && a'.hasBase == a.hasBase
  {
  }

  lemma {:induction false} BaseIff(xs: seq<Input>)
    ensures FeedAll(xs).hasBase <==> HasBase(xs)
    decreases |xs|
  {
    hide Feed;
    if xs != [] {
      var before, x := xs[..|xs| - 1], xs[|xs| - 1];
      BaseIff(before);
      if FeedAll(before).state == InFrame && x.Received? && x.kind == 0x12 {
        EndStep(FeedAll(before), x);
      } else {
        OtherwiseNoCommit(FeedAll(before), x);
      }
    }
  }

  /** Exactly when a frame is committed, and which: behind its beginning nothing but its own rectangles and messages that
      are none of a frame's, then an end that agrees with all of them; if PARTIAL, behind a commit of the same session. */
  lemma CommitIff(xs: seq<Input>, x: Input)
    ensures FeedAll(xs + [x]).commits != FeedAll(xs).commits <==>
              exists j :: Completes(xs, j, x)
    ensures forall j | Completes(xs, j, x) ::
              FeedAll(xs + [x]).commits == FeedAll(xs).commits + [Committed(BeginAt(xs[j]), RectsBehind(xs, j))]
  {
    hide Feed, SplitPump.Bytes, HasBase, RectsBehind;
    var a := FeedAll(xs);
    assert (xs + [x])[..|xs|] == xs;
    BaseIff(xs);
    forall j | Completes(xs, j, x)
      ensures Feed(a, x).commits == a.commits + [Committed(BeginAt(xs[j]), RectsBehind(xs, j))]
    {
      OpenCollects(xs, j);
      EndStep(a, x);
    }
    if a.state == InFrame && x.Received? && x.kind == 0x12 {
      var j := OpenSinceSome(xs);
      OpenCollects(xs, j);
      EndStep(a, x);
      assert FeedAll(xs + [x]).commits != a.commits ==> Completes(xs, j, x);
    } else {
      OtherwiseNoCommit(a, x);
    }
  }
}
