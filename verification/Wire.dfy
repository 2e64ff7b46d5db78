/** Frame messages and their payload bytes (shared/protocol/message.cpp, byte_order.h). */
module Wire {

  type byte = n: int | 0 <= n < 0x100
  type u16 = n: int | 0 <= n < 0x1_0000
  type u32 = n: int | 0 <= n < 0x1_0000_0000

  datatype Option<+T> = None | Some(value: T)

  datatype FrameType = Full | Partial

  datatype Rect = Rect(x: u16, y: u16, w: u16, h: u16, pixels: seq<byte>)

  datatype Message =
    | FrameBegin(id: u16, ftype: FrameType, width: u16, height: u16)
    | FrameRect(rect: Rect)
    | FrameEnd(endId: u16, rectCount: u16, byteCount: u32, aborted: bool)

  const MAX_SIDE := 4096
  const MAX_MESSAGE_PAYLOAD := 0x10_0000
  const MAX_FRAME_RECTS := 0xFFFF
  const MAX_FRAME_BYTES := 0xFFFF_FFFF

  const TYPE_FRAME_BEGIN: byte := 0x10
  const TYPE_FRAME_RECT: byte := 0x11
  const TYPE_FRAME_END: byte := 0x12

  function Concat(parts: seq<seq<byte>>): seq<byte> {
    if parts == [] then [] else parts[0] + Concat(parts[1..])
  }

  // ---- little-endian integers ----

  function PutU16(v: u16): (p: seq<byte>)
    ensures |p| == 2
  {
    [v % 0x100, v / 0x100]
  }

  function PutU32(v: u32): (p: seq<byte>)
    ensures |p| == 4
  {
    [v % 0x100, v / 0x100 % 0x100, v / 0x1_0000 % 0x100, v / 0x100_0000]
  }

  function ReadU16(p: seq<byte>, i: nat): u16
    requires i + 2 <= |p|
  {
    (p[i] as int) + 0x100 * (p[i + 1] as int)
  }

  function ReadU32(p: seq<byte>, i: nat): u32
    requires i + 4 <= |p|
  {
    (p[i] as int) + 0x100 * (p[i + 1] as int) + 0x1_0000 * (p[i + 2] as int) + 0x100_0000 * (p[i + 3] as int)
  }

  lemma U16RoundTrip(v: u16, p: seq<byte>, i: nat)
    requires i + 2 <= |p| && p[i..i + 2] == PutU16(v)
    ensures ReadU16(p, i) == v
  {
    assert p[i] == p[i..i + 2][0] && p[i + 1] == p[i..i + 2][1];
  }

  lemma U32RoundTrip(v: u32, p: seq<byte>, i: nat)
    requires i + 4 <= |p| && p[i..i + 4] == PutU32(v)
    ensures ReadU32(p, i) == v
  {
    var q := p[i..i + 4];
    assert p[i] == q[0] && p[i + 1] == q[1] && p[i + 2] == q[2] && p[i + 3] == q[3];
    U32Parts(v);
  }

  lemma U32Parts(v: u32)
    ensures v == v % 0x100 + 0x100 * (v / 0x100 % 0x100) + 0x1_0000 * (v / 0x1_0000 % 0x100) + 0x100_0000 * (v / 0x100_0000)
  {
    var a := v / 0x100;
    var b := a / 0x100;
    assert v / 0x1_0000 == b && v / 0x100_0000 == b / 0x100;
  }

  // ---- payloads ----

  function TypeByte(t: FrameType): byte { if t == Full then 0 else 1 }

  function RectHeader(x: u16, y: u16, w: u16, h: u16): (p: seq<byte>)
    ensures |p| == 8
  {
    PutU16(x) + PutU16(y) + PutU16(w) + PutU16(h)
  }

  /** The payload that makeFrameBegin, SlotRectSource and makeFrameEnd produce. */
  function Payload(m: Message): seq<byte> {
    match m
    case FrameBegin(id, t, w, h) => PutU16(id) + [TypeByte(t), 0] + PutU16(w) + PutU16(h) + PutU32(0)
    case FrameRect(r) => RectHeader(r.x, r.y, r.w, r.h) + r.pixels
    case FrameEnd(id, rects, bytes, aborted) =>
      PutU16(id) + PutU16(rects) + PutU32(bytes) + [if aborted then 1 else 0]
  }

  function TypeOf(m: Message): byte {
    match m
    case FrameBegin(_, _, _, _) => TYPE_FRAME_BEGIN
    case FrameRect(_) => TYPE_FRAME_RECT
    case FrameEnd(_, _, _, _) => TYPE_FRAME_END
  }

  lemma BeginFields(id: u16, t: FrameType, w: u16, h: u16)
    ensures var p := Payload(FrameBegin(id, t, w, h));
            && |p| == 12 && ReadU16(p, 0) == id && p[2] == TypeByte(t) && p[3] == 0
            && ReadU16(p, 4) == w && ReadU16(p, 6) == h
  {
    var p := Payload(FrameBegin(id, t, w, h));
    U16RoundTrip(id, p, 0);
    U16RoundTrip(w, p, 4);
    U16RoundTrip(h, p, 6);
  }

  lemma RectFields(r: Rect)
    ensures var p := Payload(FrameRect(r));
            && |p| == 8 + |r.pixels| && p[8..] == r.pixels
            && ReadU16(p, 0) == r.x && ReadU16(p, 2) == r.y && ReadU16(p, 4) == r.w && ReadU16(p, 6) == r.h
  {
    var p := Payload(FrameRect(r));
    var hd := RectHeader(r.x, r.y, r.w, r.h);
    assert hd[0..2] == PutU16(r.x) && hd[2..4] == PutU16(r.y) && hd[4..6] == PutU16(r.w) && hd[6..8] == PutU16(r.h);
    assert p[..8] == hd;
    assert forall i | 0 <= i < 8 :: p[i] == hd[i];
    assert p[0..2] == hd[0..2] && p[2..4] == hd[2..4] && p[4..6] == hd[4..6] && p[6..8] == hd[6..8];
    U16RoundTrip(r.x, p, 0);
    U16RoundTrip(r.y, p, 2);
    U16RoundTrip(r.w, p, 4);
    U16RoundTrip(r.h, p, 6);
  }

  lemma EndFields(id: u16, rects: u16, bytes: u32, aborted: bool)
    ensures var p := Payload(FrameEnd(id, rects, bytes, aborted));
            && |p| == 9 && ReadU16(p, 0) == id && ReadU16(p, 2) == rects && ReadU32(p, 4) == bytes
            && p[8] == if aborted then 1 else 0
  {
    var p := Payload(FrameEnd(id, rects, bytes, aborted));
    U16RoundTrip(id, p, 0);
    U16RoundTrip(rects, p, 2);
    U32RoundTrip(bytes, p, 4);
  }

  // ---- the bytes themselves ----

  lemma BeginBytes(id: u16, t: FrameType, w: u16, h: u16)
    ensures TypeOf(FrameBegin(id, t, w, h)) == 0x10
    ensures Payload(FrameBegin(id, t, w, h)) ==
            [id % 0x100, id / 0x100, if t == Full then 0 else 1, 0, w % 0x100, w / 0x100, h % 0x100, h / 0x100, 0, 0, 0, 0]
  {
  }

  lemma RectBytes(r: Rect)
    ensures TypeOf(FrameRect(r)) == 0x11
    ensures Payload(FrameRect(r)) ==
            [r.x % 0x100, r.x / 0x100, r.y % 0x100, r.y / 0x100, r.w % 0x100, r.w / 0x100, r.h % 0x100, r.h / 0x100]
            + r.pixels
  {
  }

  lemma EndBytes(id: u16, rects: u16, bytes: u32, aborted: bool)
    ensures TypeOf(FrameEnd(id, rects, bytes, aborted)) == 0x12
    ensures Payload(FrameEnd(id, rects, bytes, aborted)) ==
            [id % 0x100, id / 0x100, rects % 0x100, rects / 0x100,
             bytes % 0x100, bytes / 0x100 % 0x100, bytes / 0x1_0000 % 0x100, bytes / 0x100_0000,
             if aborted then 1 else 0]
  {
  }
}
