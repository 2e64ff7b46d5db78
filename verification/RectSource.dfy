/** SlotRectSource: streams one staged rectangle, header first, in reads of any size
    (shared/display/remote_display.cpp:31-66). */
module RectSources {
  import opened Wire

  /** The first n bytes of one slot's pixel buffer. */
  ghost function Row(rows: array2<byte>, i: nat, n: nat): (s: seq<byte>)
    requires i < rows.Length0 && n <= rows.Length1
    reads rows
    ensures |s| == n
  {
    seq(n, k requires 0 <= k < n && i < rows.Length0 && n <= rows.Length1 reads rows => rows[i, k])
  }

  class RectSource {
    const x: u16
    const y: u16
    const w: u16
    const h: u16
    const rows: array2<byte>
    const row: nat
    const pixelBytes: nat
    var pos: nat

    ghost predicate Valid()
      reads this
    {
      row < rows.Length0 && pixelBytes <= rows.Length1 && pos <= 8 + pixelBytes
    }

    /** Everything the source will ever produce: the payload of the rectangle's message. */
    ghost function Total(): (t: seq<byte>)
      requires row < rows.Length0 && pixelBytes <= rows.Length1
      reads rows
      ensures t == Payload(FrameRect(Rect(x, y, w, h, Row(rows, row, pixelBytes)))) && |t| == 8 + pixelBytes
    {
      RectHeader(x, y, w, h) + Row(rows, row, pixelBytes)
    }

    constructor (x: u16, y: u16, w: u16, h: u16, rows: array2<byte>, row: nat, pixelBytes: nat)
      requires row < rows.Length0 && pixelBytes <= rows.Length1
      ensures Valid() && pos == 0
      ensures this.x == x && this.y == y && this.w == w && this.h == h
      ensures this.rows == rows && this.row == row && this.pixelBytes == pixelBytes
    {
      this.x, this.y, this.w, this.h := x, y, w, h;
      this.rows, this.row, this.pixelBytes := rows, row, pixelBytes;
      pos := 0;
    }

    /** Fills as much of dst as is asked for and left. */
    method Read(dst: array<byte>, offset: nat, maxBytes: nat) returns (produced: nat)
      requires Valid() && offset + maxBytes <= dst.Length
      modifies this`pos, dst
      ensures Valid() && pos == old(pos) + produced
      ensures produced == if maxBytes < 8 + pixelBytes - old(pos) then maxBytes else 8 + pixelBytes - old(pos)
      ensures dst[offset..offset + produced] == Total()[old(pos)..pos]
      ensures dst[..offset] == old(dst[..offset])
    {
      ghost var total := Total();
      produced := 0;
      while produced < maxBytes && pos < 8 + pixelBytes
        invariant produced <= maxBytes && pos == old(pos) + produced <= 8 + pixelBytes
        invariant Total() == total
        invariant dst[offset..offset + produced] == total[old(pos)..pos]
        invariant dst[..offset] == old(dst[..offset])
      {
        if pos < 8 {
          dst[offset + produced] := HeaderByte(pos);
        } else {
          dst[offset + produced] := rows[row, pos - 8];
        }
        assert dst[offset + produced] == total[pos];
        produced, pos := produced + 1, pos + 1;
      }
    }

    function HeaderByte(i: nat): (b: byte)
      requires i < 8
      ensures b == RectHeader(x, y, w, h)[i]
    {
      match i
      case 0 => x % 0x100
      case 1 => x / 0x100
      case 2 => y % 0x100
      case 3 => y / 0x100
      case 4 => w % 0x100
      case 5 => w / 0x100
      case 6 => h % 0x100
      case _ => h / 0x100
    }
  }

  // ---- any sequence of reads ----

  /** What reads of the given sizes produce from a payload t, starting at pos. */
  function Reads(t: seq<byte>, pos: nat, sizes: seq<nat>): seq<seq<byte>>
    requires pos <= |t|
    decreases |sizes|
  {
    if sizes == [] then []
    else
      var n := if sizes[0] < |t| - pos then sizes[0] else |t| - pos;
      [t[pos..pos + n]] + Reads(t, pos + n, sizes[1..])
  }

  function Sum(sizes: seq<nat>): nat {
    if sizes == [] then 0 else sizes[0] + Sum(sizes[1..])
  }

  /** However the reads are cut, together they produce the payload in order, and nothing after it. */
  lemma {:induction false} ReadsConcat(t: seq<byte>, pos: nat, sizes: seq<nat>)
    requires pos <= |t|
    ensures var n := if Sum(sizes) < |t| - pos then Sum(sizes) else |t| - pos;
            Concat(Reads(t, pos, sizes)) == t[pos..pos + n]
    decreases |sizes|
  {
    if sizes != [] {
      var n := if sizes[0] < |t| - pos then sizes[0] else |t| - pos;
      ReadsConcat(t, pos + n, sizes[1..]);
      var parts := Reads(t, pos, sizes);
      assert parts[1..] == Reads(t, pos + n, sizes[1..]);
    }
  }
}
