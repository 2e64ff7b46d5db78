/** Packets on the byte stream and the resynchronising parser (scripts/espview_e_ab_harness.py:146-152, 231-268). */
module Packets {
  import opened Wire
  import opened Crc

  datatype Packet = Packet(ptype: byte, flags: byte, number: u16, payload: seq<byte>)

  const MAGIC: seq<byte> := [0x45, 0x53, 0x50, 0x56]
  const HEADER_LEN := 20
  const MAX_PAYLOAD := 4096

  // ---- building ----

  /** The header up to its CRC: the part the CRC covers. */
  function Covered(p: Packet, len: u32): (h: seq<byte>)
    ensures |h| == 14
  {
    MAGIC + [1, p.ptype, p.flags, 0] + PutU16(p.number) + PutU32(len)
  }

  function Build(p: Packet): (b: seq<byte>)
    requires |p.payload| < 0x1_0000_0000
    ensures |b| == Size(p)
  {
    Covered(p, |p.payload|) + PutU32(Crc32(Covered(p, |p.payload|) + p.payload)) + [0, 0] + p.payload
  }

  /** The bytes of a packet. */
  lemma BuildBytes(p: Packet)
    requires |p.payload| < 0x1_0000_0000
    ensures var n := |p.payload|;
            var covered: seq<byte> :=
              [0x45, 0x53, 0x50, 0x56, 1, p.ptype, p.flags, 0, p.number % 0x100, p.number / 0x100,
               n % 0x100, n / 0x100 % 0x100, n / 0x1_0000 % 0x100, n / 0x100_0000];
            var crc := Crc32(covered + p.payload);
            Build(p) ==
            covered + [crc % 0x100, crc / 0x100 % 0x100, crc / 0x1_0000 % 0x100, crc / 0x100_0000, 0, 0] + p.payload
  {
    hide Crc32;
    var n := |p.payload|;
    assert Covered(p, n) == [0x45, 0x53, 0x50, 0x56, 1, p.ptype, p.flags, 0, p.number % 0x100, p.number / 0x100,
                             n % 0x100, n / 0x100 % 0x100, n / 0x1_0000 % 0x100, n / 0x100_0000];
    hide Covered;
  }

  // ---- looking at the front of the buffer ----

  datatype Verdict = NeedMore | BadMagic | BadHeader | BadCrc | Got(packet: Packet)
  {
    predicate Error() { BadMagic? || BadHeader? || BadCrc? }
  }

  function Look(buf: seq<byte>): Verdict {
    if |buf| < HEADER_LEN then NeedMore
    else if buf[..4] != MAGIC then BadMagic
    else if buf[4] != 1 || buf[5] < 1 || buf[5] > 0x51 || ReadU32(buf, 10) > MAX_PAYLOAD then BadHeader
    else
      var total := HEADER_LEN + ReadU32(buf, 10);
      if |buf| < total then NeedMore
      else if Crc32(buf[..14] + buf[HEADER_LEN..total]) != ReadU32(buf, 14) then BadCrc
      else Got(Packet(buf[5], buf[6], ReadU16(buf, 8), buf[HEADER_LEN..total]))
  }

  function Size(p: Packet): nat { HEADER_LEN + |p.payload| }

  lemma GotFits(buf: seq<byte>)
    ensures Look(buf).Got? ==> Size(Look(buf).packet) <= |buf| && |Look(buf).packet.payload| <= MAX_PAYLOAD
  {
  }

  /** A verdict does not depend on what comes later. */
  lemma LookIsStable(buf: seq<byte>, more: seq<byte>)
    requires Look(buf) != NeedMore
    ensures Look(buf + more) == Look(buf)
  {
    hide Crc32;
    var all := buf + more;
    assert all[..4] == buf[..4] && forall i | 0 <= i < HEADER_LEN :: all[i] == buf[i];
    if buf[..4] == MAGIC && ReadU32(buf, 10) <= MAX_PAYLOAD && |buf| >= HEADER_LEN + ReadU32(buf, 10) {
      var total := HEADER_LEN + ReadU32(buf, 10);
      assert all[..14] == buf[..14] && all[HEADER_LEN..total] == buf[HEADER_LEN..total];
    }
  }

  // ---- the parser ----

  datatype Stats = Stats(badMagic: nat, crcErrors: nat, protocolErrors: nat, packets: nat)

  const NO_STATS := Stats(0, 0, 0, 0)

  datatype Parser = Parser(buf: seq<byte>, stats: Stats)

  function CountError(s: Stats, v: Verdict): Stats
    requires v.Error()
  {
    match v
    case BadMagic => s.(badMagic := s.badMagic + 1)
    case BadHeader => s.(protocolErrors := s.protocolErrors + 1)
    case BadCrc => s.(crcErrors := s.crcErrors + 1)
  }

  /** The next packet, skipping one byte for every error. */
  function Next(s: Parser): (r: (Option<Packet>, Parser))
    decreases |s.buf|
  {
    var v := Look(s.buf);
    if v == NeedMore then (None, s)
    else if v.Error() then Next(Parser(s.buf[1..], CountError(s.stats, v)))
    else
      GotFits(s.buf);
      (Some(v.packet), Parser(s.buf[Size(v.packet)..], s.stats.(packets := s.stats.packets + 1)))
  }

  lemma NextOne(s: Parser)
    ensures var v := Look(s.buf);
            Next(s) ==
            if v == NeedMore then (None, s)
            else if v.Error() then Next(Parser(s.buf[1..], CountError(s.stats, v)))
            else
              (GotFits(s.buf);
               (Some(v.packet), Parser(s.buf[Size(v.packet)..], s.stats.(packets := s.stats.packets + 1))))
  {
  }

  lemma {:induction false} NextShrinks(s: Parser)
    ensures |Next(s).1.buf| <= |s.buf| && (Next(s).0.Some? ==> |Next(s).1.buf| < |s.buf|)
    decreases |s.buf|
  {
    var v := Look(s.buf);
    if v != NeedMore && v.Error() {
      NextShrinks(Parser(s.buf[1..], CountError(s.stats, v)));
    } else {
      GotFits(s.buf);
    }
  }

  /** Everything that can be read now. */
  function Drain(s: Parser): (seq<Packet>, Parser)
    decreases |s.buf|
  {
    NextShrinks(s);
    var (p, s1) := Next(s);
    if p.None? then ([], s1)
    else
      var (ps, s2) := Drain(s1);
      ([p.value] + ps, s2)
  }

  function Fed(s: Parser, data: seq<byte>): Parser { s.(buf := s.buf + data) }

  /** drain, one look at a time */
  lemma DrainOne(s: Parser)
    ensures var v := Look(s.buf);
            Drain(s) ==
            if v == NeedMore then ([], s)
            else if v.Error() then Drain(Parser(s.buf[1..], CountError(s.stats, v)))
            else
              (GotFits(s.buf);
               var (ps, s2) := Drain(Parser(s.buf[Size(v.packet)..], s.stats.(packets := s.stats.packets + 1)));
               ([v.packet] + ps, s2))
  {
    hide Look;
  }

  class Stream {
    var buf: seq<byte>
    var stats: Stats

    ghost function State(): Parser
      reads this
    {
      Parser(buf, stats)
    }

    constructor ()
      ensures State() == Parser([], NO_STATS)
    {
      buf, stats := [], NO_STATS;
    }

    method Feed(data: seq<byte>)
      modifies this
      ensures State() == Fed(old(State()), data)
    {
      buf := buf + data;
    }

    method NextPacket() returns (r: Option<Packet>)
      modifies this
      ensures (r, State()) == Next(old(State()))
    {
      hide Look, Next;
      var v := Examine();
      while v.Error()
        invariant v == Look(buf) && Next(State()) == Next(old(State()))
        decreases |buf|
      {
        NonEmpty(buf);
        NextOne(State());
        stats := CountError(stats, v);
        buf := buf[1..];
        v := Examine();
      }
      GotFits(buf);
      NextOne(State());
      if v.Got? {
        buf := buf[HEADER_LEN + |v.packet.payload|..];
        stats := stats.(packets := stats.packets + 1);
        r := Some(v.packet);
      } else {
        r := None;
      }
    }

    /** The checks of one turn of the loop, in order. */
    method Examine() returns (v: Verdict)
      ensures v == Look(buf)
    {
      hide Crc32, Value, ReadU16, ReadU32;
      if |buf| < HEADER_LEN {
        return NeedMore;
      }
      if buf[..4] != MAGIC {
        return BadMagic;
      }
      var version, ptype, flags, number := buf[4], buf[5], buf[6], ReadU16(buf, 8);
      var length, crc := ReadU32(buf, 10), ReadU32(buf, 14);
      if version != 1 || ptype < 1 || ptype > 0x51 || length > MAX_PAYLOAD {
        return BadHeader;
      }
      var total := HEADER_LEN + length;
      if |buf| < total {
        return NeedMore;
      }
      var payload := buf[HEADER_LEN..total];
      var computed := ComputeCrc32(buf[..14] + payload);
      if Value(computed) != crc {
        return BadCrc;
      }
      return Got(Packet(ptype, flags, number, payload));
    }
  }

  lemma NonEmpty(buf: seq<byte>)
    ensures Look(buf) != NeedMore ==> |buf| >= HEADER_LEN
  {
  }

  // ---- how the stream is cut does not matter ----

  lemma {:induction false} DrainFed(s: Parser, more: seq<byte>)
    ensures var (ps, s1) := Drain(s);
            var (qs, s2) := Drain(Fed(s1, more));
            Drain(Fed(s, more)) == (ps + qs, s2)
    decreases |s.buf|
  {
    hide Look, Drain, Next;
    var v := Look(s.buf);
    DrainOne(s);
    if v != NeedMore {
      LookIsStable(s.buf, more);
      DrainOne(Fed(s, more));
      GotFits(s.buf);
      var n := if v.Error() then 1 else Size(v.packet);
      NonEmpty(s.buf);
      assert (s.buf + more)[n..] == s.buf[n..] + more;
      var stats := if v.Error() then CountError(s.stats, v) else s.stats.(packets := s.stats.packets + 1);
      DrainFed(Parser(s.buf[n..], stats), more);
      if v.Got? {
        var ps := Drain(Parser(s.buf[n..], stats)).0;
        var qs := Drain(Fed(Drain(s).1, more)).0;
        assert [v.packet] + (ps + qs) == [v.packet] + ps + qs;
      }
    } else {
      assert [] + Drain(Fed(s, more)).0 == Drain(Fed(s, more)).0;
    }
  }

  /** What is left over is waiting for more bytes. */
  lemma {:induction false} DrainRests(s: Parser)
    ensures Look(Drain(s).1.buf) == NeedMore
    decreases |s.buf|
  {
    hide Look, Drain, Next;
    var v := Look(s.buf);
    DrainOne(s);
    if v != NeedMore {
      GotFits(s.buf);
      NonEmpty(s.buf);
      var n := if v.Error() then 1 else Size(v.packet);
      var stats := if v.Error() then CountError(s.stats, v) else s.stats.(packets := s.stats.packets + 1);
      DrainRests(Parser(s.buf[n..], stats));
    }
  }

  /** Feed and drain chunk by chunk. */
  function Receive(s: Parser, chunks: seq<seq<byte>>): (seq<Packet>, Parser)
    decreases |chunks|
  {
    if chunks == [] then ([], s)
    else
      var (ps, s1) := Drain(Fed(s, chunks[0]));
      var (qs, s2) := Receive(s1, chunks[1..]);
      (ps + qs, s2)
  }

  /** Splitting independence: packets, error counts and leftover bytes are those of feeding everything at once. */
  lemma {:induction false} SplittingIsInvisible(s: Parser, chunks: seq<seq<byte>>)
    requires Look(s.buf) == NeedMore
    ensures Receive(s, chunks) == Drain(Fed(s, Concat(chunks)))
    decreases |chunks|
  {
    hide Look, Drain, Next;
    if chunks == [] {
      assert s.buf + [] == s.buf;
      DrainOne(s);
    } else {
      var s1 := Drain(Fed(s, chunks[0])).1;
      DrainRests(Fed(s, chunks[0]));
      SplittingIsInvisible(s1, chunks[1..]);
      DrainFed(Fed(s, chunks[0]), Concat(chunks[1..]));
      assert s.buf + chunks[0] + Concat(chunks[1..]) == s.buf + Concat(chunks);
    }
  }

  // ---- no byte is lost ----

  function Sizes(ps: seq<Packet>): nat { if ps == [] then 0 else Size(ps[0]) + Sizes(ps[1..]) }

  function Errors(s: Stats): nat { s.badMagic + s.crcErrors + s.protocolErrors }

  /** Every byte fed is part of a packet, was skipped for one counted error, or is still buffered. */
  lemma {:induction false} BytesAreConserved(s: Parser)
    ensures var (ps, s') := Drain(s);
            && |s.buf| == Sizes(ps) + (Errors(s'.stats) - Errors(s.stats)) + |s'.buf|
            && s'.stats.packets == s.stats.packets + |ps|
    decreases |s.buf|
  {
    hide Look, Drain, Next;
    var v := Look(s.buf);
    DrainOne(s);
    if v != NeedMore {
      GotFits(s.buf);
      NonEmpty(s.buf);
      var n := if v.Error() then 1 else Size(v.packet);
      var stats := if v.Error() then CountError(s.stats, v) else s.stats.(packets := s.stats.packets + 1);
      BytesAreConserved(Parser(s.buf[n..], stats));
    }
  }

  // ---- round trip ----

  predicate Sendable(p: Packet) { 1 <= p.ptype <= 0x51 && |p.payload| <= MAX_PAYLOAD }

  /** Where the fields of a built packet are. */
  lemma BuiltFields(p: Packet, d: seq<byte>)
    requires |p.payload| < 0x1_0000_0000 && Build(p) <= d
    ensures |Build(p)| == Size(p) <= |d|
    ensures d[..4] == MAGIC && d[4] == 1 && d[5] == p.ptype && d[6] == p.flags && ReadU16(d, 8) == p.number
    ensures ReadU32(d, 10) == |p.payload| && d[..14] == Covered(p, |p.payload|)
    ensures ReadU32(d, 14) == Crc32(d[..14] + p.payload) && d[HEADER_LEN..Size(p)] == p.payload
  {
    hide Crc32, ReadU16, ReadU32, PutU16, PutU32;
    var h := Covered(p, |p.payload|);
    var crc := Crc32(h + p.payload);
    assert d[..14] == h && h[8..10] == PutU16(p.number) && h[10..14] == PutU32(|p.payload|);
    assert d[8..10] == h[8..10] && d[10..14] == h[10..14] && d[14..18] == PutU32(crc);
    assert d[..4] == h[..4] == MAGIC && d[4] == h[4] && d[5] == h[5] && d[6] == h[6];
    U16RoundTrip(p.number, d, 8);
    U32RoundTrip(|p.payload|, d, 10);
    U32RoundTrip(crc, d, 14);
  }

  /** A built packet is read back exactly if its type and length are ones the parser accepts. */
  lemma BuiltIsRead(p: Packet, rest: seq<byte>)
    requires |p.payload| < 0x1_0000_0000
    ensures Look(Build(p) + rest) == if Sendable(p) then Got(p) else BadHeader
  {
    hide Build, Crc32, ReadU32, ReadU16;
    BuiltFields(p, Build(p) + rest);
  }

  predicate AllSendable(ps: seq<Packet>) { forall i | 0 <= i < |ps| :: Sendable(ps[i]) }

  predicate AllSized(ps: seq<Packet>) { forall i | 0 <= i < |ps| :: |ps[i].payload| <= MAX_PAYLOAD }

  function BuildAll(ps: seq<Packet>): seq<byte>
    requires AllSized(ps)
  {
    if ps == [] then [] else Build(ps[0]) + BuildAll(ps[1..])
  }

  lemma SendableIsSized(ps: seq<Packet>)
    requires AllSendable(ps)
    ensures AllSized(ps)
  {
    forall i | 0 <= i < |ps| ensures |ps[i].payload| <= MAX_PAYLOAD {
      assert Sendable(ps[i]);
    }
  }

  lemma {:induction false} BuildAllSnoc(ps: seq<Packet>, k: nat)
    requires AllSized(ps) && k < |ps|
    ensures BuildAll(ps[..k + 1]) == BuildAll(ps[..k]) + Build(ps[k])
    decreases k
  {
    hide Build;
    if k == 0 {
      assert ps[..1][1..] == [] && ps[..0] == [];
    } else {
      BuildAllSnoc(ps[1..], k - 1);
      assert ps[..k + 1][1..] == ps[1..][..k] && ps[..k][1..] == ps[1..][..k - 1];
    }
  }

  lemma {:induction false} BuiltAreRead(ps: seq<Packet>, stats: Stats)
    requires AllSendable(ps)
    ensures Drain(Parser(BuildAll(ps), stats)) == (ps, Parser([], stats.(packets := stats.packets + |ps|)))
    decreases |ps|
  {
    hide Look, Build, Drain, Next;
    var s := Parser(BuildAll(ps), stats);
    DrainOne(s);
    if ps != [] {
      assert Sendable(ps[0]) && AllSendable(ps[1..]);
      var rest := BuildAll(ps[1..]);
      assert s.buf == Build(ps[0]) + rest;
      hide BuildAll, Sendable, AllSendable;
      BuiltIsRead(ps[0], rest);
      assert s.buf[Size(ps[0])..] == rest;
      BuiltAreRead(ps[1..], stats.(packets := stats.packets + 1));
      assert ps == [ps[0]] + ps[1..];
    } else {
      NonEmpty([]);
    }
  }

  /** Round trip: packets sent back to back arrive exactly, with no error counted and nothing left, however the bytes
      are cut on the way. */
  lemma StreamRoundTrip(ps: seq<Packet>, chunks: seq<seq<byte>>)
    requires AllSendable(ps) && Concat(chunks) == BuildAll(ps)
    ensures Receive(Parser([], NO_STATS), chunks) == (ps, Parser([], Stats(0, 0, 0, |ps|)))
  {
    hide Look, Drain, Receive, BuildAll, Concat, Build, AllSendable, AllSized;
    var s := Parser([], NO_STATS);
    SendableIsSized(ps);
    NonEmpty([]);
    SplittingIsInvisible(s, chunks);
    assert Fed(s, Concat(chunks)) == Parser(BuildAll(ps), NO_STATS);
    BuiltAreRead(ps, NO_STATS);
    assert NO_STATS.(packets := NO_STATS.packets + |ps|) == Stats(0, 0, 0, |ps|);
  }

  // ---- damage ----

  /** What the CRC covers, as bytes of the packet. */
  function Checked(d: seq<byte>, total: nat): seq<byte>
    requires HEADER_LEN <= total <= |d|
  {
    d[..14] + d[HEADER_LEN..total]
  }

  lemma LookComplete(d: seq<byte>, len: nat)
    requires |d| >= HEADER_LEN + len && d[..4] == MAGIC && ReadU32(d, 10) == len <= MAX_PAYLOAD
    ensures Look(d) == if d[4] != 1 || d[5] < 1 || d[5] > 0x51 then BadHeader
                       else if Crc32(Checked(d, HEADER_LEN + len)) != ReadU32(d, 14) then BadCrc
                       else Got(Packet(d[5], d[6], ReadU16(d, 8), d[HEADER_LEN..HEADER_LEN + len]))
  {
    hide Crc32, ReadU32, ReadU16;
  }

  lemma SameU32(a: seq<byte>, b: seq<byte>, i: nat)
    requires i + 4 <= |a| && i + 4 <= |b|
    ensures ReadU32(a, i) == ReadU32(b, i) <==> a[i..i + 4] == b[i..i + 4]
  {
    var p, q := a[i..i + 4], b[i..i + 4];
    assert p == [a[i], a[i + 1], a[i + 2], a[i + 3]] && q == [b[i], b[i + 1], b[i + 2], b[i + 3]];
    if ReadU32(a, i) == ReadU32(b, i) {
      DigitsUnique(a[i], a[i + 1], a[i + 2], a[i + 3], b[i], b[i + 1], b[i + 2], b[i + 3]);
    }
  }

  lemma DigitsUnique(a0: byte, a1: byte, a2: byte, a3: byte, b0: byte, b1: byte, b2: byte, b3: byte)
    requires a0 + 0x100 * a1 + 0x1_0000 * a2 + 0x100_0000 * a3 == b0 + 0x100 * b1 + 0x1_0000 * b2 + 0x100_0000 * b3
    ensures a0 == b0 && a1 == b1 && a2 == b2 && a3 == b3
  {
    FirstDigit(a0, a1 + 0x100 * a2 + 0x1_0000 * a3, b0, b1 + 0x100 * b2 + 0x1_0000 * b3);
    FirstDigit(a1, a2 + 0x100 * a3, b1, b2 + 0x100 * b3);
    FirstDigit(a2, a3, b2, b3);
  }

  lemma FirstDigit(a: byte, x: nat, b: byte, y: nat)
    requires a + 0x100 * x == b + 0x100 * y
    ensures a == b && x == y
  {
  }

  /** One damaged byte among those the CRC covers. */
  lemma CoveredByte(good: seq<byte>, i: nat, x: byte, total: nat)
    requires HEADER_LEN <= total <= |good| && (i < 14 || HEADER_LEN <= i < total) && x != good[i]
    ensures Crc32(Checked(good[i := x], total)) != Crc32(Checked(good, total))
  {
    hide Crc32;
    var k := if i < 14 then i else i - 6;
    var c, c' := Checked(good, total), Checked(good[i := x], total);
    assert c[k] == good[i] && c' == c[k := x];
    OneByteDetected(c[..k], c[k], x, c[k + 1..]);
    assert c == c[..k] + [c[k]] + c[k + 1..] && c' == c[..k] + [x] + c[k + 1..];
  }

  /** d starts with a packet the parser accepts, of the given payload length. */
  predicate Accepted(d: seq<byte>, len: nat) {
    && HEADER_LEN + len <= |d| && d[..4] == MAGIC && d[4] == 1 && 1 <= d[5] <= 0x51
    && ReadU32(d, 10) == len <= MAX_PAYLOAD && ReadU32(d, 14) == Crc32(Checked(d, HEADER_LEN + len))
  }

  lemma BuiltIsAccepted(p: Packet, d: seq<byte>)
    requires Sendable(p) && Build(p) <= d
    ensures Accepted(d, |p.payload|) && Look(d) == Got(p)
  {
    hide Build, Crc32, ReadU32, ReadU16, Covered;
    BuiltFields(p, d);
    LookComplete(d, |p.payload|);
  }

  lemma DamagedHeader(d: seq<byte>, len: nat, i: nat, x: byte)
    requires Accepted(d, len) && i < HEADER_LEN && !(10 <= i < 14) && x != d[i]
    ensures var v := Look(d[i := x]);
            v == if i < 4 then BadMagic
                 else if i == 4 || (i == 5 && !(1 <= x <= 0x51)) then BadHeader
                 else if i == 18 || i == 19 then Look(d)
                 else BadCrc
  {
    hide Crc32, ReadU32;
    var bad, total := d[i := x], HEADER_LEN + len;
    if i < 4 {
      assert bad[..4][i] != MAGIC[i];
    } else {
      assert bad[..4] == d[..4] && bad[10..14] == d[10..14];
      SameU32(d, bad, 10);
      LookComplete(d, len);
      LookComplete(bad, len);
      hide Look;
      SameU32(d, bad, 14);
      if i < 14 {
        assert bad[14..18] == d[14..18];
        CoveredByte(d, i, x, total);
      } else {
        assert Checked(bad, total) == Checked(d, total) && bad[HEADER_LEN..total] == d[HEADER_LEN..total];
        assert i < 18 ==> bad[14..18][i - 14] != d[14..18][i - 14];
        assert i >= 18 ==> bad[14..18] == d[14..18];
      }
    }
  }

  lemma DamagedPayload(d: seq<byte>, bad: seq<byte>, len: nat)
    requires Accepted(d, len) && |bad| == |d| && bad[..HEADER_LEN] == d[..HEADER_LEN]
    requires Crc32(Checked(bad, HEADER_LEN + len)) != Crc32(Checked(d, HEADER_LEN + len))
    ensures Look(bad) == BadCrc
  {
    hide Crc32, ReadU32, Checked;
    HeadersAgree(d, bad);
    LookComplete(bad, len);
  }

  lemma HeadersAgree(a: seq<byte>, b: seq<byte>)
    requires |a| >= HEADER_LEN && |b| >= HEADER_LEN && a[..HEADER_LEN] == b[..HEADER_LEN]
    ensures a[..4] == b[..4] && a[4] == b[4] && a[5] == b[5] && a[..14] == b[..14]
    ensures ReadU32(a, 10) == ReadU32(b, 10) && ReadU32(a, 14) == ReadU32(b, 14)
  {
    var h, g := a[..HEADER_LEN], b[..HEADER_LEN];
    assert a[..4] == h[..4] && b[..4] == g[..4] && a[..14] == h[..14] && b[..14] == g[..14];
    assert a[4] == h[4] && b[4] == g[4] && a[5] == h[5] && b[5] == g[5];
    assert a[10..14] == h[10..14] && b[10..14] == g[10..14] && a[14..18] == h[14..18] && b[14..18] == g[14..18];
    hide ReadU32;
    SameU32(a, b, 10);
    SameU32(a, b, 14);
  }

  /** One damaged byte outside the length field, and what the parser makes of it: the packet is still accepted, unchanged,
      exactly if the byte is one of the two reserved ones after the CRC, which nothing covers. */
  lemma OneDamagedByte(p: Packet, d: seq<byte>, i: nat, x: byte)
    requires Sendable(p) && Build(p) <= d && i < Size(p) && !(10 <= i < 14) && x != d[i]
    ensures var v := Look(d[i := x]);
            v == if i < 4 then BadMagic
                 else if i == 4 || (i == 5 && !(1 <= x <= 0x51)) then BadHeader
                 else if i == 18 || i == 19 then Got(p)
                 else BadCrc
  {
    hide Build, Accepted, Look;
    BuiltIsAccepted(p, d);
    if i < HEADER_LEN {
      DamagedHeader(d, |p.payload|, i, x);
    } else {
      assert d[i := x][..HEADER_LEN] == d[..HEADER_LEN];
      CoveredByte(d, i, x, Size(p));
      DamagedPayload(d, d[i := x], |p.payload|);
    }
  }

  // ---- what is counted ----

  /** Bytes that cannot begin a packet, before packets: one bad magic each, and every packet is read. */
  lemma {:induction false} GarbageIsSkipped(g: seq<byte>, ps: seq<Packet>, stats: Stats)
    requires 0x45 !in g && ps != [] && AllSendable(ps)
    ensures Drain(Parser(g + BuildAll(ps), stats)) ==
            (ps, Parser([], stats.(badMagic := stats.badMagic + |g|, packets := stats.packets + |ps|)))
    decreases |g|
  {
    hide Look, Build, Drain, Next, BuildAll, AllSendable, AllSized;
    SendableIsSized(ps);
    if g == [] {
      BuiltAreRead(ps, stats);
      assert g + BuildAll(ps) == BuildAll(ps);
    } else {
      FirstFits(ps);
      SkipsOne(g, BuildAll(ps), stats);
      GarbageIsSkipped(g[1..], ps, stats.(badMagic := stats.badMagic + 1));
    }
  }

  lemma SkipsOne(g: seq<byte>, more: seq<byte>, stats: Stats)
    requires g != [] && 0x45 !in g && |more| >= HEADER_LEN
    ensures Drain(Parser(g + more, stats)) == Drain(Parser(g[1..] + more, stats.(badMagic := stats.badMagic + 1)))
  {
    hide Look, Drain, Next;
    NotMagic(g + more);
    DrainOne(Parser(g + more, stats));
    assert (g + more)[1..] == g[1..] + more;
  }

  lemma FirstFits(ps: seq<Packet>)
    requires ps != [] && AllSized(ps)
    ensures |BuildAll(ps)| >= HEADER_LEN
  {
    hide Build;
  }

  lemma NotMagic(b: seq<byte>)
    requires |b| >= HEADER_LEN && b[0] != 0x45
    ensures Look(b) == BadMagic
  {
    hide Crc32, ReadU16, ReadU32;
    assert b[..4][0] == b[0];
  }

  /** One damaged byte is counted as what it damages: magic, header, or what the CRC covers. */
  lemma DamageIsCounted(p: Packet, d: seq<byte>, i: nat, x: byte, stats: Stats)
    requires Sendable(p) && Build(p) <= d && i < Size(p) && !(10 <= i < 14) && i != 18 && i != 19 && x != d[i]
    ensures Drain(Parser(d[i := x], stats)) ==
            Drain(Parser(d[i := x][1..],
                         if i < 4 then stats.(badMagic := stats.badMagic + 1)
                         else if i == 4 || (i == 5 && !(1 <= x <= 0x51))
                         then stats.(protocolErrors := stats.protocolErrors + 1)
                         else stats.(crcErrors := stats.crcErrors + 1)))
  {
    hide Look, Build, Drain, Next;
    OneDamagedByte(p, d, i, x);
    DrainOne(Parser(d[i := x], stats));
  }

  /** Any damage confined to four adjacent payload bytes is detected. */
  lemma FourDamagedBytes(p: Packet, d: seq<byte>, k: nat, t: seq<byte>)
    requires Sendable(p) && Build(p) <= d && HEADER_LEN <= k && k + 4 <= Size(p)
    requires |t| == 4 && t != d[k..k + 4]
    ensures Look(d[..k] + t + d[k + 4..]) == BadCrc
  {
    hide Build, Accepted, Look, Crc32;
    BuiltIsAccepted(p, d);
    var bad, total := d[..k] + t + d[k + 4..], Size(p);
    assert bad[..HEADER_LEN] == d[..HEADER_LEN];
    var before, s, after := d[..14] + d[HEADER_LEN..k], d[k..k + 4], d[k + 4..total];
    FourBytesDetected(before, s, t, after);
    assert Checked(d, total) == before + s + after && Checked(bad, total) == before + t + after;
    DamagedPayload(d, bad, |p.payload|);
  }
}
