/** FrameAssembler with its callbacks, as the source has it: fields changed in place, one early return per check.
    Every method is proved to do what its namesake in FrameAssembly says. */
module FrameReceivers {
  import opened Wire
  import opened FrameAssembly
  import A = FrameAssembly

  function Fulls(commits: seq<Committed>): (n: nat)
    ensures n <= |commits|
  {
    if commits == [] then 0
    else Fulls(commits[..|commits| - 1]) + if commits[|commits| - 1].begin.ftype == Full then 1 else 0
  }

  class FrameReceiver {
    var state: FrameState
    var begin: BeginInfo
    var rectCount: nat
    var byteCount: nat
    var hasCommittedBase: bool
    var rects: seq<Rect>         // the rectangles collected by the callbacks for the frame being received
    var commits: seq<Committed>
    var commitsFull: nat
    var commitsPartial: nat
    var discardsTotal: nat

    ghost predicate Valid()
      reads this
    {
      && (state != InFrame ==> rects == [])
      && commitsFull == Fulls(commits) && commitsPartial == |commits| - Fulls(commits)
    }

    ghost function State(): Assembler
      reads this
    {
      Assembler(state, begin, rectCount, byteCount, hasCommittedBase, rects, commits)
    }

    constructor ()
      ensures Valid() && State() == FRESH
    {
      state, begin, rectCount, byteCount, hasCommittedBase := Idle, NO_BEGIN, 0, 0, false;
      rects, commits, commitsFull, commitsPartial, discardsTotal := [], [], 0, 0, 0;
    }

    method OnMessage(kind: byte, p: seq<byte>)
      requires Valid()
      modifies this
      ensures Valid() && State() == A.OnMessage(old(State()), kind, p)
    {
      if kind == TYPE_FRAME_BEGIN {
        HandleBegin(p);
      } else if kind == TYPE_FRAME_RECT {
        HandleRect(p);
      } else if kind == TYPE_FRAME_END {
        HandleEnd(p);
      }
    }

    method OnStreamError()
      requires Valid()
      modifies this
      ensures Valid() && State() == A.OnStreamError(old(State()))
    {
      if state == InFrame {
        DiscardTo();
      }
    }

    method Reset()
      requires Valid()
      modifies this
      ensures Valid() && State() == OnReset(old(State()))
    {
      if state == InFrame {
        discardsTotal, rects := discardsTotal + 1, [];
      }
      state, begin, rectCount, byteCount := Idle, NO_BEGIN, 0, 0;
      hasCommittedBase := false;
    }

    method DiscardTo()
      requires Valid()
      modifies this`state, this`rects, this`discardsTotal
      ensures Valid() && State() == Discard(old(State())) && discardsTotal == old(discardsTotal) + 1
    {
      state, rects := DiscardFrame, [];
      discardsTotal := discardsTotal + 1;
    }

    method HandleBegin(p: seq<byte>)
      requires Valid()
      modifies this
      ensures Valid() && State() == OnBegin(old(State()), p)
    {
      hide Fulls;
      var ok := |p| == 12;
      if ok {
        var width, height := ReadU16(p, 4), ReadU16(p, 6);
        ok := (p[2] == 0 || p[2] == 1) && p[3] == 0 && 1 <= width <= MAX_SIDE && 1 <= height <= MAX_SIDE;
      }
      if !ok {
        if state == InFrame || state == Idle {
          DiscardTo();
        }
        return;
      }
      if state == InFrame {
        DiscardTo();
      }
      state := InFrame;
      begin := BeginInfo(ReadU16(p, 0), if p[2] == 0 then Full else Partial, ReadU16(p, 4), ReadU16(p, 6));
      rectCount, byteCount, rects := 0, 0, [];
    }

    method HandleRect(p: seq<byte>)
      requires Valid()
      modifies this
      ensures Valid() && State() == OnRect(old(State()), p)
    {
      hide Fulls;
      if state != InFrame {
        return;
      }
      var ok := 8 <= |p| <= MAX_MESSAGE_PAYLOAD;
      var x: u16, y: u16, w: u16, h: u16, pixelBytes: int := 0, 0, 0, 0, 0;
      if ok {
        x, y, w, h := ReadU16(p, 0), ReadU16(p, 2), ReadU16(p, 4), ReadU16(p, 6);
        ok := w >= 1 && h >= 1 && x + w <= begin.width && y + h <= begin.height;
        if ok {
          pixelBytes := w * h * 2;
          ok := |p| == 8 + pixelBytes;
        }
      }
      if ok {
        ok := rectCount < MAX_FRAME_RECTS && byteCount + pixelBytes <= MAX_FRAME_BYTES;
      }
      if !ok {
        DiscardTo();
        return;
      }
      rectCount, byteCount := rectCount + 1, byteCount + (|p| - 8);
      rects := rects + [Rect(x, y, w, h, p[8..])];
    }

    method HandleEnd(p: seq<byte>)
      requires Valid()
      modifies this
      ensures Valid() && State() == OnEnd(old(State()), p)
    {
      hide Fulls;
      if state != InFrame {
        return;
      }
      if |p| != 9 {
        DiscardTo();
        return;
      }
      if p[8] % 2 != 0 {
        DiscardTo();  // aborted by the sender
        return;
      }
      if p[8] != 0 {
        DiscardTo();  // unknown flags
        return;
      }
      if ReadU16(p, 0) != begin.id || ReadU16(p, 2) != rectCount || ReadU32(p, 4) != byteCount {
        DiscardTo();
        return;
      }
      if begin.ftype == Partial && !hasCommittedBase {
        DiscardTo();
        return;
      }
      Commit();
    }

    method Commit()
      requires Valid()
      modifies this
      ensures Valid()
      ensures State() == old(State()).(state := Idle, begin := NO_BEGIN, rectCount := 0, byteCount := 0, hasBase := true,
                                       rects := [], commits := old(commits) + [Committed(old(begin), old(rects))])
    {
      if begin.ftype == Full {
        commitsFull := commitsFull + 1;
      } else {
        commitsPartial := commitsPartial + 1;
      }
      assert (commits + [Committed(begin, rects)])[..|commits|] == commits;
      commits := commits + [Committed(begin, rects)];
      state, begin, rectCount, byteCount, rects := Idle, NO_BEGIN, 0, 0, [];
      hasCommittedBase := true;
    }
  }
}
