/** RemoteDisplay as the source has it: a ring of preallocated slots and the UI-side and TX-side fields, changed in
    place. Every method is proved to do to the abstract state exactly what its namesake in SenderState does. */
module RemoteDisplays {
  import opened Wire
  import opened SenderState
  import opened RectSources
  import opened FrameSinks
  import S = SenderState

  /** One slot of the ring, without its pixel buffer. */
  datatype SlotInfo = SlotInfo(inUse: bool, isFirst: bool, ftype: FrameType, id: u16,
                               x: u16, y: u16, w: u16, h: u16, pixelBytes: nat)

  const FREE_SLOT := SlotInfo(false, false, Full, 0, 0, 0, 0, 0, 0)

  /** UI-side state of the current frame. */
  datatype UiFrame = UiFrame(building: bool, endQueued: bool, id: u16, ftype: FrameType, rects: nat, bytes: nat,
                             abort: Option<u16>)

  class RemoteDisplay {
    const sink: FrameSink
    const slots: array<SlotInfo>
    const rows: array2<byte>  // one pixel buffer per slot
    const slotPixelBytes: nat

    var width: int
    var height: int
    var enabled: bool
    var connected: bool
    var needFull: bool

    var head: nat
    var count: nat

    var ui: UiFrame

    var wire: WireFrame

    var stats: Stats
    ghost var hist: seq<Frame>

    // ---- abstraction ----

    ghost var queue: seq<Slot>  // what the ring holds, in arrival order

    /** Slot k of the ring, with its row of pixels, holds s. */
    ghost predicate Holds(k: nat, s: Slot)
      requires k < slots.Length == rows.Length0 && rows.Length1 == slotPixelBytes
      reads slots, rows
    {
      var i, n := slots[k], |s.rect.pixels|;
      && s == Slot(i.isFirst, i.ftype, i.id, Rect(i.x, i.y, i.w, i.h, s.rect.pixels))
      && i.pixelBytes == n <= slotPixelBytes
      && forall j | 0 <= j < n :: rows[k, j] == s.rect.pixels[j]
    }

    /** The ring holds the queue, oldest first from head. */
    ghost predicate RingOk()
      reads this`head, this`count, this`queue, slots, rows
    {
      && 1 <= slots.Length == rows.Length0 && rows.Length1 == slotPixelBytes
      && head < slots.Length && |queue| == count <= slots.Length
      && forall i | 0 <= i < count :: Holds(Behind(head, i, slots.Length), queue[i])
    }

    ghost predicate Valid()
      reads this`head, this`count, this`queue, this`width, this`height, slots, rows, sink
    {
      sink.Valid() && RingOk() && width <= MAX_SIDE && height <= MAX_SIDE
    }

    ghost function State(): Sender
      reads this, sink
    {
      Sender(width, height, slots.Length, slotPixelBytes, enabled, connected, needFull, queue,
             ui.building, ui.endQueued, ui.id, ui.ftype, ui.rects, ui.bytes, ui.abort, wire, stats, sink.log, hist)
    }

    // ---- construction and session ----

    constructor (sink: FrameSink, width: int, height: int, rgb565: bool, queueSlots: nat, slotPixelBytes: nat)
      requires sink.Valid()
      ensures Valid() && this.sink == sink && fresh(slots) && fresh(rows)
      ensures State() == S.Init(Blank(queueSlots, slotPixelBytes).(log := old(sink.log)), width, height, rgb565).1
    {
      var n := if queueSlots < 1 then 1 else queueSlots;
      this.sink := sink;
      this.slotPixelBytes := slotPixelBytes;
      slots := new SlotInfo[n](_ => FREE_SLOT);
      rows := new byte[n, slotPixelBytes]((_, _) => 0);
      this.width, this.height := 0, 0;
      enabled, connected, needFull := true, false, true;
      head, count := 0, 0;
      ui := UiFrame(false, false, 0, Full, 0, 0, None);
      wire, stats := WireFrame(false, 0, Full, 0, 0), NO_STATS;
      hist, queue := [], [];
      new;
      var _ := Init(width, height, rgb565);
    }

    method Init(width: int, height: int, rgb565: bool) returns (status: Status)
      requires Valid()
      modifies this, slots
      ensures Valid() && (status, State()) == S.Init(old(State()), width, height, rgb565)
    {
      if width < 1 || width > MAX_SIDE || height < 1 || height > MAX_SIDE {
        return InvalidParam;
      }
      if !rgb565 {
        return NotSupported;
      }
      ForgetFrame();
      this.width, this.height := width, height;
      status := Ok;
    }

    /** Empties the queue and forgets the frame being built or sent; the next one is FULL. */
    method ForgetFrame()
      requires Valid()
      modifies this`head, this`count, this`queue, this`ui, this`wire, this`needFull, this`hist, slots
      ensures Valid() && State() == ClearFrame(old(State()))
    {
      FreeAll();
      hist := ClearFrame(old(State())).hist;
      ui, needFull := ui.(building := false, endQueued := false, abort := None), true;
      wire := wire.(open := false);
    }

    method SetEnabled(enabled: bool)
      requires Valid()
      modifies this, slots
      ensures Valid() && State() == S.SetEnabled(old(State()), enabled)
    {
      hide RingOk;
      if !enabled {
        if wire.open {
          stats := stats.(framesDropped := stats.framesDropped + 1);
        }
        ForgetFrame();
      }
      this.enabled := enabled;
    }

    /** The session layer restarts the receiver along with this call. */
    method OnConnected()
      requires Valid()
      modifies this, sink
      ensures Valid() && State() == S.OnConnected(old(State()))
    {
      hide RingOk;
      sink.Restart();
      connected, needFull := true, true;
    }

    method OnDisconnected()
      requires Valid()
      modifies this, slots, sink
      ensures Valid() && State() == S.OnDisconnected(old(State()))
    {
      assert |queue| == count;
      hide RingOk;
      if !connected {
        return;
      }
      if ui.building || ui.endQueued || count > 0 || wire.open {
        stats := stats.(framesDropped := stats.framesDropped + 1);
      }
      ForgetFrame();
      connected := false;
      sink.Restart();
    }

    method FreeAll()
      requires Valid()
      modifies this`head, this`count, this`queue, slots
      ensures Valid() && queue == []
    {
      for i := 0 to slots.Length {
        slots[i] := slots[i].(inUse := false);
      }
      head, count, queue := 0, 0, [];
    }

    // ---- UI calls ----

    /** The caller's pixels as a value; a null pointer is None. */
    ghost function Pixels(pixels: array?<byte>): Option<seq<byte>>
      reads pixels
    {
      if pixels == null then None else Some(pixels[..])
    }

    /** Non-blocking. Whatever happens, the slots pump may be sending from are not written. */
    method WriteRect(x: int, y: int, w: int, h: int, pixels: array?<byte>) returns (status: Status)
      requires Valid() && Readable(w, h, Pixels(pixels))
      modifies this, slots, rows
      ensures Valid() && (status, State()) == S.WriteRect(old(State()), x, y, w, h, old(Pixels(pixels)))
      ensures forall i | 0 <= i < old(count) :: SlotKept(Behind(old(head), i, slots.Length))
    {
      if !enabled {
        return NotEnabled;
      }
      if !connected {
        return NotConnected;
      }
      if width <= 0 || height <= 0 || x < 0 || y < 0 || w <= 0 || h <= 0 {
        return InvalidParam;
      }
      if x + w > width || y + h > height {
        return InvalidParam;
      }
      var pixelBytes := w * h * 2;
      if pixelBytes > slotPixelBytes {
        return RectTooLarge;
      }
      if pixels == null {
        return InvalidParam;
      }
      ghost var rect := Rect(x % 0x1_0000, y % 0x1_0000, w % 0x1_0000, h % 0x1_0000, pixels[..pixelBytes]);
      status := Accept(x % 0x1_0000, y % 0x1_0000, w % 0x1_0000, h % 0x1_0000, pixels, pixelBytes, rect);
    }

    twostate predicate SlotKept(k: nat)
      requires k < slots.Length == rows.Length0
      reads slots, rows
    {
      slots[k] == old(slots[k]) && forall j | 0 <= j < rows.Length1 :: rows[k, j] == old(rows[k, j])
    }

    /** The part of writeRect under the lock. */
    method Accept(x: u16, y: u16, w: u16, h: u16, pixels: array<byte>, pixelBytes: nat, ghost rect: Rect)
      returns (status: Status)
      requires Valid() && pixelBytes <= slotPixelBytes && pixelBytes <= pixels.Length
      requires rect == Rect(x, y, w, h, pixels[..pixelBytes])
      modifies this, slots, rows
      ensures Valid() && (status, State()) == S.Accept(old(State()), rect)
      ensures forall i | 0 <= i < old(count) :: SlotKept(Behind(old(head), i, slots.Length))
    {
      if ui.abort == Some(ui.id) {
        stats := stats.(rectsDropped := stats.rectsDropped + 1);
        return FrameAborted;
      }
      if !ui.building {
        if ui.endQueued || count > 0 {
          return FrameBusy;
        }
        StartFrame();
      }
      if count >= slots.Length {
        stats := stats.(queueFullEvents := stats.queueFullEvents + 1);
        return QueueFull;
      }
      Stage(x, y, w, h, pixels, pixelBytes, rect);
      status := Ok;
    }

    method StartFrame()
      requires Valid()
      modifies this`ui, this`needFull, this`hist
      ensures Valid() && State() == S.StartFrame(old(State()))
    {
      hide RingOk;
      ui := ui.(id := (ui.id + 1) % 0x1_0000, building := true, ftype := if needFull then Full else Partial,
                rects := 0, bytes := 0);
      needFull := false;
      hist := hist + [Frame(ui.id, ui.ftype, width, height, [], false, false)];
    }

    /** Copies the rectangle into the slot behind the last one in use. */
    method Stage(x: u16, y: u16, w: u16, h: u16, pixels: array<byte>, pixelBytes: nat, ghost rect: Rect)
      requires Valid() && count < slots.Length && pixelBytes <= slotPixelBytes && pixelBytes <= pixels.Length
      requires rect == Rect(x, y, w, h, pixels[..pixelBytes])
      modifies this`count, this`queue, this`ui, this`stats, this`hist, slots, rows
      ensures Valid() && State() == S.Enqueue(old(State()), rect)
      ensures forall i | 0 <= i < old(count) :: SlotKept(Behind(old(head), i, slots.Length))
    {
      BehindIsRemainder(head, count, slots.Length);
      var tail := (head + count) % slots.Length;
      assert |queue| == count && slots.Length == rows.Length0;
      hide RingOk, SlotKept, Holds, Last, SetLast;
      FillSlot(tail, x, y, w, h, pixels, pixelBytes, rect);
      if count > stats.queuePeak {
        stats := stats.(queuePeak := count);
      }
      ui := ui.(rects := ui.rects + 1, bytes := ui.bytes + pixelBytes);
      hist := if hist == [] then [] else SetLast(hist, Last(hist).(rects := Last(hist).rects + [rect]));
    }

    method FillSlot(tail: nat, x: u16, y: u16, w: u16, h: u16, pixels: array<byte>, pixelBytes: nat, ghost rect: Rect)
      requires Valid() && count < slots.Length && pixelBytes <= slotPixelBytes && pixelBytes <= pixels.Length
      requires tail == Behind(head, count, slots.Length) && rect == Rect(x, y, w, h, pixels[..pixelBytes])
      modifies this`count, this`queue, slots, rows
      ensures Valid() && |queue| == count == old(count) + 1
      ensures queue == old(queue) + [Slot(ui.rects == 0, ui.ftype, ui.id, rect)]
      ensures forall i | 0 <= i < old(count) :: SlotKept(Behind(head, i, slots.Length))
    {
      slots[tail] := SlotInfo(true, ui.rects == 0, ui.ftype, ui.id, x, y, w, h, pixelBytes);
      CopyPixels(tail, pixels, pixelBytes);
      queue := queue + [Slot(ui.rects == 0, ui.ftype, ui.id, rect)];
      count := count + 1;
    }

    method CopyPixels(k: nat, pixels: array<byte>, n: nat)
      requires k < rows.Length0 && n <= rows.Length1 && n <= pixels.Length
      modifies rows
      ensures forall j | 0 <= j < n :: rows[k, j] == pixels[j]
      ensures forall i, j | 0 <= i < rows.Length0 && i != k && 0 <= j < rows.Length1 :: rows[i, j] == old(rows[i, j])
    {
      for i := 0 to n
        invariant forall j | 0 <= j < i :: rows[k, j] == pixels[j]
        invariant forall r, j | 0 <= r < rows.Length0 && r != k && 0 <= j < rows.Length1 :: rows[r, j] == old(rows[r, j])
      {
        rows[k, i] := pixels[i];
      }
    }

    method Flush() returns (status: Status)
      requires Valid()
      modifies this`ui, this`hist
      ensures Valid() && status == Ok && State() == S.Flush(old(State()))
    {
      hide RingOk;
      if ui.building {
        hist := S.Flush(State()).hist;
        ui := ui.(endQueued := true, building := false);
      }
      status := Ok;
    }

    method DropPendingFrame()
      requires Valid()
      modifies this`ui, this`stats, this`needFull, this`hist
      ensures Valid() && State() == S.DropPendingFrame(old(State()))
    {
      assert |queue| == count;
      hide RingOk, MarkDropped;
      if ui.abort.None? {
        if ui.building || ui.endQueued || count > 0 || wire.open {
          ui := ui.(abort := Some(ui.id));
          stats := stats.(framesDropped := stats.framesDropped + 1);
        } else {
          needFull := true;
          return;
        }
      }
      ui, needFull := ui.(building := false, endQueued := false), true;
      hist := MarkDropped(hist);
    }

    // ---- pump ----

    /** The slot fields copied out under the lock; `row` tells where its pixels are. */
    method TakeHead() returns (held: Held)
      requires Valid() && queue != []
      ensures held == Hold(queue[0])
    {
      var s := slots[head];
      assert Holds(Behind(head, 0, slots.Length), queue[0]);
      held := Held(s.isFirst, s.ftype, s.id, s.x, s.y, s.w, s.h, s.pixelBytes);
    }

    method CloseOut() returns (c: Closing)
      requires Valid()
      modifies this`ui, this`wire
      ensures Valid() && (State(), c) == S.CloseOut(old(State()))
    {
      if ui.abort.Some? && wire.open {
        c := AbortEnd(wire.id, wire.rects, wire.bytes);
        wire, ui := wire.(open := false), ui.(endQueued := false, building := false, abort := None);
      } else if ui.endQueued && wire.open {
        c := CommitEnd(wire.id, wire.ftype, wire.rects, wire.bytes);
        wire, ui := wire.(open := false), ui.(endQueued := false, building := false);
      } else if ui.abort.Some? {
        c := Cleared;
        ui := ui.(abort := None, building := false, endQueued := false);
      } else {
        c := Nothing;
      }
    }

    method SendEnd(c: Closing, ghost frame: nat)
      requires Valid() && c.Sends()
      modifies this`needFull, this`stats, sink
      ensures Valid() && State() == S.SendEnd(old(State()), sink.script, c, frame)
    {
      hide RingOk;
      var ok := sink.Send(EndMessage(c), frame);
      if !ok {
        needFull := true;
      } else if c.CommitEnd? {
        stats := CountFrame(stats, wire.id, c.ftype, c.rects, c.bytes % 0x1_0000_0000);
      }
    }

    method SendBegin(held: Held) returns (active: bool)
      requires Valid()
      modifies this`needFull, this`wire, sink
      ensures Valid() && (State(), active) == S.SendBegin(old(State()), sink.script, held)
    {
      hide RingOk;
      active := sink.Send(FrameBegin(held.id, held.ftype, width % 0x1_0000, height % 0x1_0000), Tag(State()));
      if active {
        wire := WireFrame(true, held.id, held.ftype, 0, 0);
      } else {
        needFull := true;
      }
    }

    /** Streams straight out of the pixel buffer of the slot at the head. */
    method StreamHead(held: Held, ghost frame: nat) returns (ok: bool)
      requires Valid() && queue != [] && held == Hold(queue[0])
      modifies sink
      ensures Valid()
      ensures var o := Fate(FrameRect(queue[0].rect), sink.script(|old(sink.log)|));
              sink.log == old(sink.log) + [Sent(FrameRect(queue[0].rect), o, frame)] && ok == o.Ok()
    {
      assert Holds(Behind(head, 0, slots.Length), queue[0]);
      assert Row(rows, head, held.bytes) == queue[0].rect.pixels;
      hide Fate, Payload;
      var src := new RectSource(held.x, held.y, held.w, held.h, rows, head, held.bytes);
      ok := sink.SendStreaming(src, queue[0].rect, frame);
    }

    method SendRect(held: Held)
      requires Valid() && queue != [] && held == Hold(queue[0])
      modifies this`needFull, this`wire, this`ui, this`stats, sink
      ensures Valid() && State() == S.SendRect(old(State()), sink.script, held)
    {
      assert |queue| == count;
      hide Fate, Tag, RingOk;
      var ok := StreamHead(held, Tag(State()));
      if ok {
        stats := stats.(rectsSent := stats.rectsSent + 1);
        wire := wire.(rects := wire.rects + 1, bytes := wire.bytes + held.bytes);
      } else if wire.open {
        ui, needFull := ui.(abort := Some(wire.id)), true;
        stats := stats.(framesDropped := stats.framesDropped + 1);
      } else {
        needFull := true;
      }
    }

    method PopFront()
      requires Valid()
      modifies this`head, this`count, this`queue, slots
      ensures Valid() && State() == S.Pop(old(State()))
    {
      assert |queue| == count;
      hide RingOk;
      if count == 0 {
        return;
      }
      AdvanceHead();
    }

    method AdvanceHead()
      requires RingOk() && count > 0
      modifies this`head, this`count, this`queue, slots
      ensures RingOk() && queue == old(queue)[1..]
    {
      BehindIsRemainder(head, 1, slots.Length);
      slots[head] := slots[head].(inUse := false);
      head := (head + 1) % slots.Length;
      count, queue := count - 1, queue[1..];
      forall i | 0 <= i < count
        ensures Holds(Behind(head, i, slots.Length), queue[i])
      {
        ghost var k := Behind(old(head), i + 1, slots.Length);
        assert k == Behind(head, i, slots.Length) != old(head);
        assert old(Holds(k, queue[i + 1]));
      }
    }

    /** One entry of the queue, or the end of the frame: false when there was nothing to send. */
    method Pump() returns (more: bool)
      requires Valid()
      modifies this, slots, sink
      ensures Valid() && (State(), more) == S.Pump(old(State()), sink.script)
    {
      ghost var frame := Tag(State());
      if count == 0 {
        var c := CloseOut();
        if c.Sends() {
          SendEnd(c, frame);
        }
        return c != Nothing;
      }
      var held := TakeHead();
      if ui.abort == Some(held.id) {
        stats := stats.(rectsDropped := stats.rectsDropped + 1);
        PopFront();
        return true;
      }
      PumpSlot(held, frame);
      more := true;
    }

    method PumpSlot(held: Held, ghost frame: nat)
      requires Valid() && queue != [] && held == Hold(queue[0]) && frame == Tag(State())
      modifies this, slots, sink
      ensures Valid() && State() == S.PumpSlot(old(State()), sink.script)
    {
      var active := true;
      if held.isFirst {
        active := SendBegin(held);
      }
      if active {
        SendRect(held);
      }
      PopFront();
      if count == 0 {
        var c := CloseOut();
        if c.Sends() {
          SendEnd(c, frame);
        }
      }
    }
  }

  /** The ring index i places behind head. */
  function Behind(head: nat, i: nat, n: nat): (k: nat)
    requires head < n && i <= n
    ensures k < n
  {
    if head + i < n then head + i else head + i - n
  }

  /** It is what the source computes with a remainder. */
  lemma BehindIsRemainder(head: nat, i: nat, n: nat)
    requires head < n && i <= n
    ensures (head + i) % n == Behind(head, i, n)
  {
    if head + i >= n {
      RemainderOnce(head + i - n, n);
    }
  }

  lemma RemainderOnce(a: nat, n: nat)
    requires a <= n && n > 0
    ensures (a + n) % n == if a == n then 0 else a
  {
  }
}
