/** The receiver's screen (pc/src/virtual_screen_widget.cpp): an image rebuilt by FULL frames and patched by PARTIAL
    ones, as the source draws it and as the replay of the rectangles it must equal. */
module Screens {
  import opened Wire
  import opened FrameAssembly

  datatype Rgb = Rgb(r: byte, g: byte, b: byte)

  const BLACK := Rgb(0, 0, 0)

  /** RGB565 to RGB888: the top bits of each channel are repeated at the bottom. */
  function Expand(v: u16): Rgb {
    var r5, g6, b5 := v / 0x800, v / 0x20 % 0x40, v % 0x20;
    Rgb(r5 * 8 + r5 / 4, g6 * 4 + g6 / 16, b5 * 8 + b5 / 4)
  }

  /** The conversion loses nothing. */
  lemma ExpandIsExact(v: u16)
    ensures var c := Expand(v); v == c.r / 8 * 0x800 + c.g / 4 * 0x20 + c.b / 8
  {
    var r5, g6, b5 := v / 0x800, v / 0x20 % 0x40, v % 0x20;
    TopBits(r5, 8, 4);
    TopBits(g6, 4, 16);
    TopBits(b5, 8, 4);
    var c := Expand(v);
    assert c.r / 8 == r5 && c.g / 4 == g6 && c.b / 8 == b5;
    hide Expand;
    Fields(v);
  }

  /** The low bits of each channel repeat its top bits, so that every value lies within one step of the linear scale. */
  lemma ExpandRepeatsTopBits(v: u16)
    ensures var c := Expand(v);
            && c.r % 8 == c.r / 32 && c.g % 4 == c.g / 64 && c.b % 8 == c.b / 32
            && -31 < 31 * c.r - 255 * (c.r / 8) < 31 && -63 < 63 * c.g - 255 * (c.g / 4) < 63
            && -31 < 31 * c.b - 255 * (c.b / 8) < 31
  {
    var r5, g6, b5 := v / 0x800, v / 0x20 % 0x40, v % 0x20;
    var c := Expand(v);
    assert 0 <= r5 < 32 && 0 <= g6 < 64 && 0 <= b5 < 32;
    assert c.r == r5 * 8 + r5 / 4 && c.g == g6 * 4 + g6 / 16 && c.b == b5 * 8 + b5 / 4;
    hide Expand;
    FiveBits(r5);
    SixBits(g6);
    FiveBits(b5);
  }

  lemma FiveBits(x: nat)
    requires x < 32
    ensures var y := x * 8 + x / 4; y / 8 == x && y % 8 == y / 32 && -31 < 31 * y - 255 * x < 31
  {
  }

  lemma SixBits(x: nat)
    requires x < 64
    ensures var y := x * 4 + x / 16; y / 4 == x && y % 4 == y / 64 && -63 < 63 * y - 255 * x < 63
  {
  }

  lemma Fields(v: u16)
    ensures v == v / 0x800 * 0x800 + v / 0x20 % 0x40 * 0x20 + v % 0x20
  {
    var u := v / 0x20;
    assert v == u * 0x20 + v % 0x20;
    assert u == u / 0x40 * 0x40 + u % 0x40;
    assert u / 0x40 == v / 0x800;
  }

  lemma TopBits(x: nat, up: nat, down: nat)
    requires (up == 8 && down == 4 && x < 32) || (up == 4 && down == 16 && x < 64)
    ensures x / down < up && (x * up + x / down) / up == x
  {
  }

  /** A committed frame as the widget receives it; the type and format bytes are not trusted. */
  datatype DisplayFrame = DisplayFrame(id: u16, ftype: byte, format: byte, width: u16, height: u16, rects: seq<Rect>)

  // ---- what the screen shows ----

  /** No image, or an image with everything drawn on it since it was black. */
  datatype Shown = Blank | Image(width: u16, height: u16, drawn: seq<Rect>, id: u16, ftype: byte)

  predicate Displayable(f: DisplayFrame) {
    f.format == 0 && 1 <= f.width <= MAX_SIDE && 1 <= f.height <= MAX_SIDE
  }

  predicate IsFull(f: DisplayFrame) { Displayable(f) && f.ftype == 0 }

  predicate Patches(f: DisplayFrame, width: u16, height: u16) {
    Displayable(f) && f.ftype == 1 && f.width == width && f.height == height
  }

  function AfterFrame(s: Shown, f: DisplayFrame): Shown {
    if IsFull(f) then Image(f.width, f.height, f.rects, f.id, 0)
    else if s.Image? && Patches(f, s.width, s.height) then s.(drawn := s.drawn + f.rects, id := f.id, ftype := 1)
    else s
  }

  /** Which frames change the screen: a FULL one always, a PARTIAL one on an image of its size, in the one known format. */
  lemma FrameTakenIff(s: Shown, f: DisplayFrame)
    ensures var taken := f.format == 0 && 1 <= f.width <= 4096 && 1 <= f.height <= 4096
                         && (f.ftype == 0 || (f.ftype == 1 && s.Image? && s.width == f.width && s.height == f.height));
            AfterFrame(s, f) ==
            if !taken then s
            else Image(f.width, f.height, (if f.ftype == 0 then [] else s.drawn) + f.rects, f.id, f.ftype)
  {
    assert [] + f.rects == f.rects;
  }

  // ---- the colour of a pixel ----

  predicate Covers(r: Rect, px: int, py: int) { r.x <= px < r.x + r.w && r.y <= py < r.y + r.h }

  /** Where in its data a rectangle of width w has the pixel at column x of row y. */
  function Offset(w: int, x: int, y: int): int { (y * w + x) * 2 }

  lemma OffsetInside(w: int, h: int, x: int, y: int)
    requires 0 <= x < w && 0 <= y < h
    ensures 0 <= Offset(w, x, y) <= w * h * 2 - 2
  {
    assert (y + 1) * w <= h * w;
  }

  function PixelOf(r: Rect, px: int, py: int): Rgb
    requires Covers(r, px, py) && |r.pixels| == r.w * r.h * 2
  {
    OffsetInside(r.w, r.h, px - r.x, py - r.y);
    Expand(ReadU16(r.pixels, Offset(r.w, px - r.x, py - r.y)))
  }

  lemma PixelAt(r: Rect, x: int, y: int)
    requires 0 <= x < r.w && 0 <= y < r.h && |r.pixels| == r.w * r.h * 2
    ensures 0 <= Offset(r.w, x, y) <= |r.pixels| - 2
    ensures PixelOf(r, r.x + x, r.y + y) == Expand(ReadU16(r.pixels, Offset(r.w, x, y)))
  {
    hide Offset, Expand, ReadU16;
    OffsetInside(r.w, r.h, x, y);
    assert r.x + x - r.x == x && r.y + y - r.y == y;
  }

  /** Row by row, left to right, two bytes a pixel, the low one first. */
  lemma PixelBytes(r: Rect, i: nat)
    requires |r.pixels| == r.w * r.h * 2 && i < r.w * r.h
    ensures var x, y := r.x + i % r.w, r.y + i / r.w;
            Covers(r, x, y) && PixelOf(r, x, y) == Expand(r.pixels[2 * i] as int + 0x100 * r.pixels[2 * i + 1] as int)
  {
    hide PixelOf, Offset, Expand;
    RowOf(i, r.w, r.h);
    PixelAt(r, i % r.w, i / r.w);
    OffsetOf(i, r.w);
  }

  lemma RowOf(i: nat, w: nat, h: nat)
    requires i < w * h
    ensures w > 0 && 0 <= i % w < w && 0 <= i / w < h
  {
    assert w > 0;
    var q := i / w;
    assert i == q * w + i % w;
    assert (h - q) * w == h * w - q * w > 0;
  }

  lemma OffsetOf(i: nat, w: nat)
    requires w > 0
    ensures Offset(w, i % w, i / w) == 2 * i
  {
    assert i == i / w * w + i % w;
  }

  predicate Paints(r: Rect, width: int, height: int, px: int, py: int) {
    Fits(r, width, height) && Covers(r, px, py)
  }

  /** The last drawable rectangle over the pixel, else black. */
  function Colour(drawn: seq<Rect>, width: int, height: int, px: int, py: int): Rgb {
    if drawn == [] then BLACK
    else
      var r := drawn[|drawn| - 1];
      if Paints(r, width, height, px, py) then PixelOf(r, px, py)
      else Colour(drawn[..|drawn| - 1], width, height, px, py)
  }

  lemma {:induction false} ColourIsLast(drawn: seq<Rect>, i: nat, width: int, height: int, px: int, py: int)
    requires i < |drawn| && Paints(drawn[i], width, height, px, py)
    requires forall j | i < j < |drawn| :: !Paints(drawn[j], width, height, px, py)
    ensures Colour(drawn, width, height, px, py) == PixelOf(drawn[i], px, py)
    decreases |drawn|
  {
    if i < |drawn| - 1 {
      ColourIsLast(drawn[..|drawn| - 1], i, width, height, px, py);
    }
  }

  lemma {:induction false} ColourIsBlack(drawn: seq<Rect>, width: int, height: int, px: int, py: int)
    requires forall j | 0 <= j < |drawn| :: !Paints(drawn[j], width, height, px, py)
    ensures Colour(drawn, width, height, px, py) == BLACK
    decreases |drawn|
  {
    if drawn != [] {
      ColourIsBlack(drawn[..|drawn| - 1], width, height, px, py);
    }
  }

  /** Once something covers a pixel, what was drawn before it no longer matters. */
  lemma {:induction false} ColourForgets(before: seq<Rect>, drawn: seq<Rect>, width: int, height: int, px: int, py: int)
    requires exists i | 0 <= i < |drawn| :: Paints(drawn[i], width, height, px, py)
    ensures Colour(before + drawn, width, height, px, py) == Colour(drawn, width, height, px, py)
    decreases |drawn|
  {
    var n := |drawn| - 1;
    assert (before + drawn)[..|before| + n] == before + drawn[..n];
    if !Paints(drawn[n], width, height, px, py) {
      var i :| 0 <= i < |drawn| && Paints(drawn[i], width, height, px, py);
      assert drawn[..n][i] == drawn[i];
      ColourForgets(before, drawn[..n], width, height, px, py);
    }
  }

  // ---- the widget ----

  class VirtualScreen {
    var image: array2?<Rgb>
    var hasImage: bool
    var frameId: u16
    var frameType: byte
    ghost var drawn: seq<Rect>

    ghost predicate Pictures(drawn: seq<Rect>)
      requires image != null
      reads this, image
    {
      forall y, x | 0 <= y < image.Length0 && 0 <= x < image.Length1 ::
        image[y, x] == Colour(drawn, image.Length1, image.Length0, x, y)
    }

    /** Every pixel has the colour of the last rectangle drawn over it. */
    ghost predicate Valid()
      reads this, image
    {
      && (hasImage <==> image != null)
      && (image != null ==> 1 <= image.Length0 <= MAX_SIDE && 1 <= image.Length1 <= MAX_SIDE && Pictures(drawn))
    }

    ghost function Shows(): Shown
      reads this
    {
      if image == null || image.Length0 > MAX_SIDE || image.Length1 > MAX_SIDE then Blank
      else Image(image.Length1, image.Length0, drawn, frameId, frameType)
    }

    constructor ()
      ensures Valid() && Shows() == Blank
    {
      image, hasImage, frameId, frameType, drawn := null, false, 0, 0, [];
    }

    method SetFrame(f: DisplayFrame)
      requires Valid()
      modifies this, image
      ensures Valid() && Shows() == AfterFrame(old(Shows()), f)
    {
      if f.format != 0 || f.width == 0 || f.height == 0 || f.width > 4096 || f.height > 4096 {
        return;
      }
      if f.ftype == 0 {
        image := new Rgb[f.height as int, f.width as int]((_, _) => BLACK);
        hasImage, drawn := true, [];
      } else if f.ftype == 1 {
        if !hasImage || image.Length1 != f.width || image.Length0 != f.height {
          return;
        }
      } else {
        return;
      }
      Draw(f.rects);
      frameId, frameType := f.id, f.ftype;
    }

    method ClearDisplay()
      modifies this
      ensures Valid() && Shows() == Blank
    {
      image, hasImage, frameId, frameType, drawn := null, false, 0, 0, [];
    }

    /** The loop over the rectangles of a frame. */
    method Draw(rects: seq<Rect>)
      requires image != null && Pictures(drawn)
      modifies this`drawn, image
      ensures Pictures(drawn) && drawn == old(drawn) + rects
    {
      for i := 0 to |rects|
        invariant Pictures(drawn) && drawn == old(drawn) + rects[..i]
      {
        ghost var before := drawn;
        BlitRect(rects[i]);
        drawn := drawn + [rects[i]];
        assert drawn[..|before|] == before;
      }
    }

    method BlitRect(r: Rect)
      requires image != null
      modifies image
      ensures forall y, x | 0 <= y < image.Length0 && 0 <= x < image.Length1 ::
                image[y, x] == if Paints(r, image.Length1, image.Length0, x, y) then PixelOf(r, x, y) else old(image[y, x])
    {
      if |r.pixels| != r.w * r.h * 2 {
        return;
      }
      var iw, ih := image.Length1, image.Length0;
      if r.w <= 0 || r.h <= 0 || r.x + r.w > iw || r.y + r.h > ih {
        return;
      }
      for y := 0 to r.h
        invariant forall py, px | 0 <= py < ih && 0 <= px < iw ::
          image[py, px] == if Covers(r, px, py) && py - r.y < y then PixelOf(r, px, py) else old(image[py, px])
      {
        BlitRow(r, y);
      }
    }

    /** The inner loop: one row of the rectangle. */
    method BlitRow(r: Rect, y: int)
      requires image != null && Fits(r, image.Length1, image.Length0) && 0 <= y < r.h
      modifies image
      ensures forall py, px | 0 <= py < image.Length0 && 0 <= px < image.Length1 ::
                image[py, px] == if Covers(r, px, py) && py - r.y == y then PixelOf(r, px, py) else old(image[py, px])
    {
      hide PixelOf, Expand, Offset;
      for x := 0 to r.w
        invariant forall py, px | 0 <= py < image.Length0 && 0 <= px < image.Length1 ::
          image[py, px] == if Covers(r, px, py) && py - r.y == y && px - r.x < x then PixelOf(r, px, py) else old(image[py, px])
      {
        PixelAt(r, x, y);
        image[r.y + y, r.x + x] := Expand(ReadU16(r.pixels, Offset(r.w, x, y)));
      }
    }
  }

  // ---- whole runs ----

  datatype Event = Frame(f: DisplayFrame) | Clear

  function Show(s: Shown, e: Event): Shown {
    match e
    case Frame(f) => AfterFrame(s, f)
    case Clear => Blank
  }

  function Play(events: seq<Event>): Shown {
    if events == [] then Blank else Show(Play(events[..|events| - 1]), events[|events| - 1])
  }

  /** The last event that gave the screen a new image, with nothing clearing it since. */
  ghost predicate LastFull(events: seq<Event>, k: int) {
    && 0 <= k < |events| && events[k].Frame? && IsFull(events[k].f)
    && forall i | k < i < |events| :: events[i].Frame? && !IsFull(events[i].f)
  }

  /** Everything the frames of events[k..] draw on an image of that size; events[k] is the FULL frame. */
  function Drawn(events: seq<Event>, k: nat, width: u16, height: u16): seq<Rect>
    requires k < |events|
    decreases |events|
  {
    var n := |events| - 1;
    if k == n then if events[k].Frame? then events[k].f.rects else []
    else
      Drawn(events[..n], k, width, height)
      + if events[n].Frame? && Patches(events[n].f, width, height) then events[n].f.rects else []
  }

  /** The image is a replay of the rectangles since the last accepted FULL frame ... */
  lemma {:induction false} ImageIsReplay(events: seq<Event>, k: nat)
    requires LastFull(events, k)
    ensures var s, f := Play(events), events[k].f;
            && s.Image? && s.width == f.width && s.height == f.height
            && s.drawn == Drawn(events, k, f.width, f.height)
    decreases |events|
  {
    if k < |events| - 1 {
      assert LastFull(events[..|events| - 1], k);
      ImageIsReplay(events[..|events| - 1], k);
    }
  }

  /** ... and there is none until one has been accepted. */
  lemma {:induction false} NoImageWithoutFull(events: seq<Event>)
    requires forall k :: !LastFull(events, k)
    ensures Play(events) == Blank
    decreases |events|
  {
    if events != [] {
      var n := |events| - 1;
      assert !LastFull(events, n);
      if events[n].Frame? {
        forall k ensures !LastFull(events[..n], k) {
          assert !LastFull(events, k);
        }
        NoImageWithoutFull(events[..n]);
      }
    }
  }
}
