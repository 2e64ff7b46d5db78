/** State and transitions of RemoteDisplay (shared/display/remote_display.cpp) as values: the staging
    queue in arrival order, the UI-side frame fields and the TX-side wire fields. `log` records every
    message handed to the sink with its fate; `hist` records what the UI asked for, frame by frame.
    Neither is read by any transition's decision. */
module SenderState {
  import opened Wire

  /** What became of a message given to the sink. The sink answers kOk exactly for Delivered and
      Corrupted; the receiver sees a stream error for Torn (cut short) and Corrupted (damaged). */
  datatype Outcome = Delivered | Refused | Torn | Corrupted {
    predicate Ok() { Delivered? || Corrupted? }
  }

  /** The sink's behaviour: the fate of the n-th log entry. */
  type Script = nat -> Outcome

  /** `frame` is the index in `hist` of the frame a message belongs to; the receiver cannot see it. */
  datatype Entry = Sent(msg: Message, outcome: Outcome, frame: nat) | SessionReset

  datatype Slot = Slot(isFirst: bool, ftype: FrameType, id: u16, rect: Rect)

  /** One frame as the UI built it. */
  datatype Frame = Frame(id: u16, ftype: FrameType, width: int, height: int, rects: seq<Rect>,
                         flushed: bool, dropped: bool)

  datatype Status =
    Ok | InvalidParam | RectTooLarge | QueueFull | FrameBusy | FrameAborted | NotEnabled | NotConnected | NotSupported

  datatype Stats = Stats(
    framesFull: nat, framesPartial: nat, framesDropped: nat, queueFullEvents: nat, queuePeak: nat,
    rectsSent: nat, rectsDropped: nat, fullPixelBytes: nat, partialPixelBytes: nat,
    lastFrameId: u16, lastFrameType: FrameType, lastRectCount: nat, lastFrameBytes: u32)

  /** The frame on the wire: its FRAME_BEGIN has been sent and, while open, its FRAME_END has not. */
  datatype WireFrame = WireFrame(open: bool, id: u16, ftype: FrameType, rects: nat, bytes: nat)

  datatype Sender = Sender(
    width: int, height: int, slots: nat, slotBytes: nat,
    enabled: bool, connected: bool, needFull: bool,
    queue: seq<Slot>,
    building: bool, endQueued: bool, frameId: u16, frameType: FrameType, rectCount: nat, byteCount: nat,
    abortPending: Option<u16>,
    wire: WireFrame,
    stats: Stats, log: seq<Entry>, hist: seq<Frame>)

  const NO_STATS := Stats(0, 0, 0, 0, 0, 0, 0, 0, 0, 0, Full, 0, 0)

  /** Before init has succeeded: no geometry, so every writeRect is refused. */
  function Blank(queueSlots: nat, slotBytes: nat): Sender {
    Sender(0, 0, if queueSlots < 1 then 1 else queueSlots, slotBytes, true, false, true, [],
           false, false, 0, Full, 0, 0, None, WireFrame(false, 0, Full, 0, 0), NO_STATS, [], [])
  }

  predicate InFlight(m: Sender) { m.building || m.endQueued || m.abortPending.Some? }

  predicate Busy(m: Sender) { InFlight(m) || m.queue != [] || m.wire.open }

  function Last(hist: seq<Frame>): Frame
    requires hist != []
  {
    hist[|hist| - 1]
  }

  function SetLast(hist: seq<Frame>, f: Frame): (r: seq<Frame>)
    requires hist != []
    ensures |r| == |hist| && Last(r) == f
    ensures forall k | 0 <= k < |hist| - 1 :: r[k] == hist[k]
  {
    hist[|hist| - 1 := f]
  }

  function MarkDropped(hist: seq<Frame>): seq<Frame> {
    if hist == [] then hist else SetLast(hist, Last(hist).(dropped := true))
  }

  // ---- session and configuration ----

  function ClearFrame(m: Sender): Sender {
    m.(queue := [], building := false, endQueued := false, abortPending := None,
       wire := m.wire.(open := false), needFull := true,
       hist := if Busy(m) then MarkDropped(m.hist) else m.hist)
  }

  function Init(m: Sender, width: int, height: int, rgb565: bool): (Status, Sender) {
    if width < 1 || width > MAX_SIDE || height < 1 || height > MAX_SIDE then (InvalidParam, m)
    else if !rgb565 then (NotSupported, m)
    else (Ok, ClearFrame(m).(width := width, height := height))
  }

  function SetEnabled(m: Sender, enabled: bool): Sender {
    if enabled then m.(enabled := true)
    else
      ClearFrame(m).(enabled := false,
        stats := if m.wire.open then m.stats.(framesDropped := m.stats.framesDropped + 1) else m.stats)
  }

  /** The session handshake restarts the receiver's assembler. */
  function OnConnected(m: Sender): Sender {
    m.(connected := true, needFull := true, log := m.log + [SessionReset])
  }

  function OnDisconnected(m: Sender): Sender {
    if !m.connected then m
    else
      var inFlight := m.building || m.endQueued || m.queue != [] || m.wire.open;
      ClearFrame(m).(connected := false, log := m.log + [SessionReset],
        stats := if inFlight then m.stats.(framesDropped := m.stats.framesDropped + 1) else m.stats)
  }

  // ---- UI calls ----

  /** A null pointer is None; otherwise the caller provides at least w*h*2 readable bytes. */
  predicate Readable(w: int, h: int, px: Option<seq<byte>>) {
    px.Some? && w > 0 && h > 0 ==> |px.value| >= w * h * 2
  }

  function WriteRect(m: Sender, x: int, y: int, w: int, h: int, px: Option<seq<byte>>): (Status, Sender)
    requires Readable(w, h, px)
  {
    if !m.enabled then (NotEnabled, m)
    else if !m.connected then (NotConnected, m)
    else if m.width <= 0 || m.height <= 0 || x < 0 || y < 0 || w <= 0 || h <= 0 then (InvalidParam, m)
    else if x + w > m.width || y + h > m.height then (InvalidParam, m)
    else if w * h * 2 > m.slotBytes then (RectTooLarge, m)
    else if px.None? then (InvalidParam, m)
    else Accept(m, Rect(x % 0x1_0000, y % 0x1_0000, w % 0x1_0000, h % 0x1_0000, px.value[..w * h * 2]))
  }

  /** The part of writeRect under the lock. */
  function Accept(m: Sender, r: Rect): (Status, Sender) {
    if m.abortPending == Some(m.frameId) then
      (FrameAborted, m.(stats := m.stats.(rectsDropped := m.stats.rectsDropped + 1)))
    else if !m.building && (m.endQueued || m.queue != []) then (FrameBusy, m)
    else
      var m1 := if m.building then m else StartFrame(m);
      if |m1.queue| >= m1.slots then
        (QueueFull, m1.(stats := m1.stats.(queueFullEvents := m1.stats.queueFullEvents + 1)))
      else (Ok, Enqueue(m1, r))
  }

  function StartFrame(m: Sender): Sender {
    var id := (m.frameId + 1) % 0x1_0000;
    var t := if m.needFull then Full else Partial;
    m.(frameId := id, building := true, frameType := t, needFull := false, rectCount := 0, byteCount := 0,
       hist := m.hist + [Frame(id, t, m.width, m.height, [], false, false)])
  }

  function Enqueue(m: Sender, r: Rect): Sender {
    var n := |m.queue| + 1;
    m.(queue := m.queue + [Slot(m.rectCount == 0, m.frameType, m.frameId, r)],
       rectCount := m.rectCount + 1, byteCount := m.byteCount + |r.pixels|,
       stats := if n > m.stats.queuePeak then m.stats.(queuePeak := n) else m.stats,
       hist := if m.hist == [] then [] else SetLast(m.hist, Last(m.hist).(rects := Last(m.hist).rects + [r])))
  }

  function Flush(m: Sender): Sender {
    if !m.building then m
    else
      m.(endQueued := true, building := false,
         hist := if m.hist == [] then [] else SetLast(m.hist, Last(m.hist).(flushed := true)))
  }

  function DropPendingFrame(m: Sender): Sender {
    if m.abortPending.None? && !(m.building || m.endQueued || m.queue != [] || m.wire.open) then m.(needFull := true)
    else
      m.(abortPending := if m.abortPending.None? then Some(m.frameId) else m.abortPending,
         stats := if m.abortPending.None? then m.stats.(framesDropped := m.stats.framesDropped + 1) else m.stats,
         building := false, endQueued := false, needFull := true, hist := MarkDropped(m.hist))
  }

  // ---- the sink ----

  function PayloadSize(msg: Message): nat {
    match msg
    case FrameBegin(_, _, _, _) => 12
    case FrameRect(r) => 8 + |r.pixels|
    case FrameEnd(_, _, _, _) => 9
  }

  /** The encoder refuses to complete a message above MAX_MESSAGE_PAYLOAD. */
  function FateBySize(size: nat, wanted: Outcome): Outcome {
    if size > MAX_MESSAGE_PAYLOAD && wanted.Ok() then Torn else wanted
  }

  function Fate(msg: Message, wanted: Outcome): Outcome {
    FateBySize(PayloadSize(msg), wanted)
  }

  function Send(m: Sender, script: Script, msg: Message, frame: nat): (r: (Sender, Outcome))
  {
    var o := Fate(msg, script(|m.log|));
    (m.(log := m.log + [Sent(msg, o, frame)]), o)
  }

  // ---- the pieces of pump, one per critical section ----

  /** What closing the wire frame still has to send. */
  datatype Closing = AbortEnd(id: u16, rects: nat, bytes: nat)
    | CommitEnd(id: u16, ftype: FrameType, rects: nat, bytes: nat)
    | Cleared | Nothing
  {
    predicate Sends() { AbortEnd? || CommitEnd? }
  }

  function CloseOut(m: Sender): (Sender, Closing) {
    var idle := m.(wire := m.wire.(open := false), endQueued := false, building := false);
    if m.abortPending.Some? && m.wire.open then
      (idle.(abortPending := None), AbortEnd(m.wire.id, m.wire.rects, m.wire.bytes))
    else if m.endQueued && m.wire.open then
      (idle, CommitEnd(m.wire.id, m.wire.ftype, m.wire.rects, m.wire.bytes))
    else if m.abortPending.Some? then
      (m.(abortPending := None, building := false, endQueued := false), Cleared)
    else (m, Nothing)
  }

  /** rectCount and byteCount are narrowed to the widths of their FRAME_END fields. */
  function EndMessage(c: Closing): Message
    requires c.Sends()
  {
    FrameEnd(c.id, c.rects % 0x1_0000, c.bytes % 0x1_0000_0000, c.AbortEnd?)
  }

  function SendEnd(m: Sender, script: Script, c: Closing, frame: nat): Sender
    requires c.Sends()
  {
    var (m1, o) := Send(m, script, EndMessage(c), frame);
    if !o.Ok() then m1.(needFull := true)
    else if c.AbortEnd? then m1
    else m1.(stats := CountFrame(m1.stats, m1.wire.id, c.ftype, c.rects, c.bytes % 0x1_0000_0000))
  }

  function CountFrame(s: Stats, id: u16, t: FrameType, rects: nat, bytes: u32): Stats {
    var s1 := s.(lastFrameId := id, lastFrameType := t, lastRectCount := rects, lastFrameBytes := bytes);
    if t == Full then s1.(framesFull := s.framesFull + 1, fullPixelBytes := s.fullPixelBytes + bytes)
    else s1.(framesPartial := s.framesPartial + 1, partialPixelBytes := s.partialPixelBytes + bytes)
  }

  /** The slot fields pump copies out under the lock; the pixels stay in the slot. */
  datatype Held = Held(isFirst: bool, ftype: FrameType, id: u16, x: u16, y: u16, w: u16, h: u16, bytes: nat)

  function Hold(s: Slot): Held {
    Held(s.isFirst, s.ftype, s.id, s.rect.x, s.rect.y, s.rect.w, s.rect.h, |s.rect.pixels|)
  }

  predicate HeadAborted(m: Sender)
    requires m.queue != []
  {
    m.abortPending == Some(m.queue[0].id)
  }

  function Pop(m: Sender): Sender {
    if m.queue == [] then m else m.(queue := m.queue[1..])
  }

  function DiscardHead(m: Sender): Sender {
    Pop(m.(stats := m.stats.(rectsDropped := m.stats.rectsDropped + 1)))
  }

  function Tag(m: Sender): nat { if m.hist == [] then 0 else |m.hist| - 1 }

  function SendBegin(m: Sender, script: Script, held: Held): (Sender, bool) {
    var (m1, o) := Send(m, script, FrameBegin(held.id, held.ftype, m.width % 0x1_0000, m.height % 0x1_0000), Tag(m));
    if o.Ok() then
      (m1.(wire := WireFrame(true, held.id, held.ftype, 0, 0)), true)
    else (m1.(needFull := true), false)
  }

  /** Streams the held rectangle, reading the pixels from the slot at the head of the queue. */
  function SendRect(m: Sender, script: Script, held: Held): Sender
    requires m.queue != []
  {
    var msg := FrameRect(Rect(held.x, held.y, held.w, held.h, m.queue[0].rect.pixels));
    var (m1, o) := Send(m, script, msg, Tag(m));
    if o.Ok() then
      m1.(stats := m1.stats.(rectsSent := m1.stats.rectsSent + 1),
          wire := m1.wire.(rects := m1.wire.rects + 1, bytes := m1.wire.bytes + held.bytes))
    else if m1.wire.open then
      m1.(abortPending := Some(m1.wire.id), needFull := true,
          stats := m1.stats.(framesDropped := m1.stats.framesDropped + 1))
    else m1.(needFull := true)
  }

  // ---- pump with nothing in between ----

  function Pump(m: Sender, script: Script): (Sender, bool) {
    if m.queue == [] then
      var (m1, c) := CloseOut(m);
      (if c.Sends() then SendEnd(m1, script, c, Tag(m)) else m1, c != Nothing)
    else if HeadAborted(m) then (DiscardHead(m), true)
    else (PumpSlot(m, script), true)
  }

  function PumpSlot(m: Sender, script: Script): Sender
    requires m.queue != []
  {
    var held := Hold(m.queue[0]);
    var (m1, active) := if held.isFirst then SendBegin(m, script, held) else (m, true);
    var m2 := if active then SendRect(m1, script, held) else m1;
    var m3 := Pop(m2);
    if m3.queue != [] then m3
    else
      var (m4, c) := CloseOut(m3);
      if c.Sends() then SendEnd(m4, script, c, Tag(m)) else m4
  }
}
