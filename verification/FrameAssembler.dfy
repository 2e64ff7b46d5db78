/** The receiving side (shared/protocol/frame_assembler.cpp) together with the collection of
    rectangles and committed frames in its callbacks (pc/src/serial_worker.cpp:342-378). */
module FrameAssembly {
  import opened Wire

  datatype FrameState = Idle | InFrame | DiscardFrame

  datatype BeginInfo = BeginInfo(id: u16, ftype: FrameType, width: u16, height: u16)

  datatype Committed = Committed(begin: BeginInfo, rects: seq<Rect>)

  datatype Assembler = Assembler(
    state: FrameState,
    begin: BeginInfo,
    rectCount: nat,
    byteCount: nat,
    hasBase: bool,
    rects: seq<Rect>,
    commits: seq<Committed>)

  const NO_BEGIN := BeginInfo(0, Full, 0, 0)

  const FRESH := Assembler(Idle, NO_BEGIN, 0, 0, false, [], [])

  // ---- payload validation ----

  function ParseBegin(p: seq<byte>): Option<BeginInfo> {
    if |p| != 12 then None
    else
      var w := ReadU16(p, 4);
      var h := ReadU16(p, 6);
      if p[2] <= 1 && p[3] == 0 && 1 <= w <= MAX_SIDE && 1 <= h <= MAX_SIDE
      then Some(BeginInfo(ReadU16(p, 0), if p[2] == 0 then Full else Partial, w, h))
      else None
  }

  function ParseRect(p: seq<byte>, begin: BeginInfo): Option<Rect> {
    if !(8 <= |p| <= MAX_MESSAGE_PAYLOAD) then None
    else
      var r := Rect(ReadU16(p, 0), ReadU16(p, 2), ReadU16(p, 4), ReadU16(p, 6), p[8..]);
      if Fits(r, begin.width, begin.height) then Some(r) else None
  }

  /** A rectangle inside a width x height screen that carries exactly its RGB565 pixels. */
  predicate Fits(r: Rect, width: int, height: int) {
    r.w >= 1 && r.h >= 1 && r.x + r.w <= width && r.y + r.h <= height && |r.pixels| == r.w * r.h * 2
  }

  // ---- message handlers ----

  function Discard(a: Assembler): Assembler { a.(state := DiscardFrame, rects := []) }

  function OnBegin(a: Assembler, p: seq<byte>): Assembler {
    match ParseBegin(p)
    case None => if a.state == DiscardFrame then a else Discard(a)
    case Some(b) => a.(state := InFrame, begin := b, rectCount := 0, byteCount := 0, rects := [])
  }

  function OnRect(a: Assembler, p: seq<byte>): Assembler {
    if a.state != InFrame then a
    else
      match ParseRect(p, a.begin)
      case None => Discard(a)
      case Some(r) =>
        if a.rectCount < MAX_FRAME_RECTS && a.byteCount + |r.pixels| <= MAX_FRAME_BYTES
        then a.(rectCount := a.rectCount + 1, byteCount := a.byteCount + |r.pixels|, rects := a.rects + [r])
        else Discard(a)
  }

  function OnEnd(a: Assembler, p: seq<byte>): Assembler {
    if a.state != InFrame then a
    else if |p| != 9 then Discard(a)
    else if p[8] != 0 then Discard(a)  // aborted, or unknown flag bits
    else if ReadU16(p, 0) != a.begin.id then Discard(a)
    else if ReadU16(p, 2) != a.rectCount then Discard(a)
    else if ReadU32(p, 4) != a.byteCount then Discard(a)
    else if a.begin.ftype == Partial && !a.hasBase then Discard(a)
    else a.(state := Idle, begin := NO_BEGIN, rectCount := 0, byteCount := 0, hasBase := true, rects := [],
            commits := a.commits + [Committed(a.begin, a.rects)])
  }

  /** Messages of other types may be interleaved and are ignored. */
  function OnMessage(a: Assembler, kind: byte, p: seq<byte>): Assembler {
    if kind == TYPE_FRAME_BEGIN then OnBegin(a, p)
    else if kind == TYPE_FRAME_RECT then OnRect(a, p)
    else if kind == TYPE_FRAME_END then OnEnd(a, p)
    else a
  }

  function OnStreamError(a: Assembler): Assembler {
    if a.state == InFrame then Discard(a) else a
  }

  /** A session restart forgets the open frame and the base, not what was committed before. */
  function OnReset(a: Assembler): Assembler {
    a.(state := Idle, begin := NO_BEGIN, rectCount := 0, byteCount := 0, hasBase := false, rects := [])
  }

  // ---- the handlers on well-formed messages ----

  lemma DeliverBegin(a: Assembler, id: u16, t: FrameType, w: u16, h: u16)
    requires 1 <= w <= MAX_SIDE && 1 <= h <= MAX_SIDE
    ensures OnBegin(a, Payload(FrameBegin(id, t, w, h))) ==
            a.(state := InFrame, begin := BeginInfo(id, t, w, h), rectCount := 0, byteCount := 0, rects := [])
  {
    BeginFields(id, t, w, h);
  }

  lemma DeliverRect(a: Assembler, r: Rect)
    requires a.state == InFrame && Fits(r, a.begin.width, a.begin.height) && 8 + |r.pixels| <= MAX_MESSAGE_PAYLOAD
    ensures OnRect(a, Payload(FrameRect(r))) ==
            if a.rectCount < MAX_FRAME_RECTS && a.byteCount + |r.pixels| <= MAX_FRAME_BYTES
            then a.(rectCount := a.rectCount + 1, byteCount := a.byteCount + |r.pixels|, rects := a.rects + [r])
            else Discard(a)
  {
    RectFields(r);
  }

  lemma DeliverEnd(a: Assembler, id: u16, rects: u16, bytes: u32, aborted: bool)
    requires a.state == InFrame
    ensures OnEnd(a, Payload(FrameEnd(id, rects, bytes, aborted))) ==
            if !aborted && id == a.begin.id && rects == a.rectCount && bytes == a.byteCount
               && (a.begin.ftype == Full || a.hasBase)
            then a.(state := Idle, begin := NO_BEGIN, rectCount := 0, byteCount := 0, hasBase := true, rects := [],
                    commits := a.commits + [Committed(a.begin, a.rects)])
            else Discard(a)
  {
    EndFields(id, rects, bytes, aborted);
  }
}
