/** StreamDecoder (shared/protocol/decoder.cpp): a byte-wise state machine over one buffer, with a search that skips
    ahead. Feeding it is proved to do what Messages.Decode says. */
module StreamDecoders {
  import opened Wire
  import opened Crc
  import opened Packets
  import opened Messages

  datatype Stage = Sync | Header | Payload | Verify

  datatype PacketHeader = PacketHeader(ptype: byte, flags: byte, number: u16, length: nat, crc: u32)

  const NO_HEADER := PacketHeader(0, 0, 0, 0, 0)

  const COMPACTION_THRESHOLD := 65536

  function ParseHeader(b: seq<byte>): PacketHeader
    requires |b| >= HEADER_LEN
  {
    PacketHeader(b[5], b[6], ReadU16(b, 8), ReadU32(b, 10), ReadU32(b, 14))
  }

  /** What a complete packet leads to, apart from leaving the buffer. */
  function Judge(d: Decoder, h: PacketHeader, payload: seq<byte>, intact: bool): (seq<Event>, Decoder) {
    if intact then Take(d, Packet(h.ptype, h.flags, h.number, payload))
    else ([Failed(CrcMismatch)], d.(partial := None, expected := Messages.After(h.number)))
  }

  /** The decoder has decided all it can. */
  predicate Resting(d: Decoder) { One(d).None? && Garbage(d.buf) == 0 }

  /** What will have been reported, and the state, once everything buffered is decoded. */
  function Owed(events: seq<Event>, d: Decoder): (seq<Event>, Decoder) { (events + Decode(d).0, Decode(d).1) }

  class StreamDecoder {
    const limit: nat
    var buf: seq<byte>
    var start: nat
    var stage: Stage
    var header: PacketHeader
    var assembling: bool
    var currentType: byte
    var currentFlags: byte
    var currentPayload: seq<byte>
    var expectedSeq: u16
    var events: seq<Event>  // what the callbacks were given

    function Pending(): seq<byte>
      requires start <= |buf|
      reads this`buf, this`start
    {
      buf[start..]
    }

    /** What each stage has already seen of the buffer. */
    ghost predicate Valid()
      reads this
    {
      && start <= |buf|
      && (stage != Sync ==> |Pending()| >= 4 && Pending()[..4] == MAGIC)
      && (stage == Payload || stage == Verify ==> HeaderIsGood(Pending(), header))
      && (stage == Verify ==> |Pending()| >= HEADER_LEN + header.length)
    }

    ghost function State(): Decoder
      requires start <= |buf|
      reads this
    {
      Decoder(limit, Pending(), expectedSeq,
              if assembling then Some(Logical(currentType, currentFlags, currentPayload)) else None)
    }

    constructor (limit: nat)
      ensures Valid() && events == [] && State() == Decoder(limit, [], 0, None) && Resting(State())
    {
      this.limit := limit;
      buf, start, stage, header, events := [], 0, Sync, NO_HEADER, [];
      assembling, currentType, currentFlags, currentPayload, expectedSeq := false, 0, 0, [], 0;
      new;
      NothingDecodes(State());
    }

    method Feed(data: seq<byte>)
      requires Valid() && Resting(State())
      modifies this
      ensures Valid() && Resting(State())
      ensures (events, State()) == Owed(old(events), Messages.Fed(old(State()), data))
    {
      if data == [] {
        RestingIsDone(State());
        assert Messages.Fed(State(), data) == State() && events + [] == events;
        return;
      }
      GrowKeepsHeader(Pending(), data, header);
      assert (buf + data)[start..] == Pending() + data;
      buf := buf + data;
      Process();
    }

    method Process()
      requires Valid()
      modifies this
      ensures Valid() && Resting(State())
      ensures (events, State()) == Owed(old(events), old(State()))
    {
      hide Resting, Decode, HeaderIsGood;
      var waiting := false;
      while !waiting
        invariant Valid()
        invariant Owed(events, State()) == Owed(old(events), old(State()))
        invariant waiting ==> Resting(State())
        decreases !waiting, |Pending()|, match stage case Sync => 3 case Header => 2 case Payload => 1 case Verify => 0
      {
        match stage {
          case Sync => waiting := Search();
          case Header => waiting := ReadHeader();
          case Payload => waiting := AwaitPayload();
          case Verify => TakePacket();
        }
      }
      RestingIsDone(State());
      assert events + [] == events;
    }

    method Consume(n: nat)
      requires start <= |buf| && n <= |Pending()|
      modifies this`buf, this`start
      ensures start <= |buf| && Pending() == old(Pending())[n..]
    {
      start := start + n;
      if start >= |buf| {
        buf, start := [], 0;
      } else if start >= COMPACTION_THRESHOLD {
        buf, start := buf[start..], 0;
      }
    }

    /** SYNC: looks for the magic, jumping over what cannot be its beginning. */
    method Search() returns (waiting: bool)
      requires Valid() && stage == Sync
      modifies this
      ensures Valid() && Owed(events, State()) == Owed(old(events), old(State()))
      ensures if waiting then stage == Sync && Resting(State()) else stage == Header && |Pending()| <= |old(Pending())|
    {
      hide Look, Crc32, Decode, Resting, HeaderIsGood;
      var p := Pending();
      var i, keepFrom := FindMagic(p);
      GarbageFree(State());
      Consume(keepFrom);
      if i {
        stage := Header;
        waiting := false;
      } else {
        waiting := true;
        ShortRests(State());
      }
    }

    /** HEADER: a bad one costs its first byte and one error. */
    method ReadHeader() returns (waiting: bool)
      requires Valid() && stage == Header
      modifies this
      ensures Valid() && Owed(events, State()) == Owed(old(events), old(State()))
      ensures if waiting then Pending() == old(Pending()) && Resting(State())
              else (stage == Sync && |Pending()| < |old(Pending())|) || (stage == Payload && Pending() == old(Pending()))
    {
      hide Look, Crc32, Decode, Resting, Owed;
      var b := Pending();
      MagicIsClean(b);
      if |b| < HEADER_LEN {
        ShortRests(State());
        return true;
      }
      if b[4] != 1 || b[5] < 1 || b[5] > 0x51 || ReadU32(b, 10) > MAX_PAYLOAD {
        BadHeaderIsOne(State());
        OwedOne(events, State());
        events := events + [Failed(HeaderError(b))];
        Consume(1);
        stage := Sync;
      } else {
        header := ParseHeader(b);
        stage := Payload;
      }
      waiting := false;
    }

    /** PAYLOAD: waits until the packet is complete. */
    method AwaitPayload() returns (waiting: bool)
      requires Valid() && stage == Payload
      modifies this`stage
      ensures Valid() && Owed(events, State()) == Owed(old(events), old(State()))
      ensures if waiting then Resting(State()) else stage == Verify && Pending() == old(Pending())
    {
      hide Look, Crc32, Decode, Resting, Owed;
      if |Pending()| < HEADER_LEN + header.length {
        IncompleteRests(State(), header);
        return true;
      }
      stage := Verify;
      waiting := false;
    }

    /** VERIFY: a bad packet is dropped whole; a good one is checked for its place in the sequence and assembled. */
    method TakePacket()
      requires Valid() && stage == Verify
      modifies this
      ensures Valid() && stage == Sync && |Pending()| < |old(Pending())|
      ensures Owed(events, State()) == Owed(old(events), old(State()))
    {
      hide Crc32, Decode, Owed, HeaderIsGood, Judge, One;
      var intact := CheckCrc();
      var b, size := Pending(), HEADER_LEN + header.length;
      ghost var r := Judge(State(), header, b[HEADER_LEN..size], intact);
      CompleteIsOne(State(), header);
      OwedOne(events, State());
      Settle(intact, b[HEADER_LEN..size]);
      Consume(size);
      stage := Sync;
      assert State() == r.1.(buf := b[size..]);
    }

    method CheckCrc() returns (intact: bool)
      requires Valid() && stage == Verify
      ensures intact == (Crc32(Pending()[..14] + Pending()[HEADER_LEN..HEADER_LEN + header.length]) == header.crc)
    {
      hide Crc32, HeaderIsGood;
      var b := Pending();
      var computed := ComputeCrc32(b[..14] + b[HEADER_LEN..HEADER_LEN + header.length]);
      intact := Value(computed) == header.crc;
    }

    method Settle(intact: bool, payload: seq<byte>)
      requires start <= |buf|
      modifies this`events, this`assembling, this`currentType, this`currentFlags, this`currentPayload, this`expectedSeq
      ensures var r := Judge(old(State()), header, payload, intact);
              events == old(events) + r.0 && State() == r.1.(buf := old(Pending()))
    {
      hide Assemble;
      if !intact {
        events, assembling := events + [Failed(CrcMismatch)], false;
        expectedSeq := (header.number + 1) % 0x1_0000;
      } else if header.ptype != TYPE_HELLO && header.number != expectedSeq {
        events, assembling := events + [Failed(SequenceGap)], false;
        expectedSeq := (header.number + 1) % 0x1_0000;
      } else {
        expectedSeq := (header.number + 1) % 0x1_0000;
        HandleVerifiedPacket(payload);
      }
    }

    ghost function Partial(): Option<Logical>
      reads this`assembling, this`currentType, this`currentFlags, this`currentPayload
    {
      if assembling then Some(Logical(currentType, currentFlags, currentPayload)) else None
    }

    method HandleVerifiedPacket(payload: seq<byte>)
      modifies this`events, this`assembling, this`currentType, this`currentFlags, this`currentPayload
      ensures var r := Assemble(limit, old(Partial()), Packet(header.ptype, header.flags, header.number, payload));
              events == old(events) + r.0 && Partial() == r.1
    {
      if !assembling {
        OpenMessage(payload);
        return;
      }
      if header.ptype != currentType || Plain(header.flags) != currentFlags {
        if header.ptype != currentType && Chunked(header.flags) {
          events := events + [Failed(ChunkTypeMismatch)];
        } else {
          events := events + [Failed(ChunkViolation)];
        }
        assembling := false;
        OpenMessage(payload);
        return;
      }
      if |currentPayload| + |payload| > limit {
        events, assembling := events + [Failed(DecodeError.MessageTooLarge)], false;
        return;
      }
      currentPayload := currentPayload + payload;
      if !Chunked(header.flags) {
        events := events + [Decoded(Logical(currentType, currentFlags, currentPayload))];
        assembling := false;
      }
    }

    method OpenMessage(payload: seq<byte>)
      requires !assembling
      modifies this`events, this`assembling, this`currentType, this`currentFlags, this`currentPayload
      ensures var r := Opening(limit, Packet(header.ptype, header.flags, header.number, payload));
              events == old(events) + r.0 && Partial() == r.1
    {
      if !Chunked(header.flags) {
        events := events + [Decoded(Logical(header.ptype, Plain(header.flags), payload))];
      } else if |payload| > limit {
        events := events + [Failed(DecodeError.MessageTooLarge)];
      } else {
        assembling, currentType, currentFlags, currentPayload := true, header.ptype, Plain(header.flags), payload;
      }
    }

    method FindMagic(p: seq<byte>) returns (found: bool, keepFrom: nat)
      ensures keepFrom == Garbage(p)
      ensures found <==> |p| - keepFrom >= 4
      ensures found ==> p[keepFrom..][..4] == MAGIC
    {
      hide Plausible, Garbage;
      var i: nat := 0;
      assert p[0..] == p;
      while i < |p|
        invariant i <= |p| && Garbage(p) == i + Garbage(p[i..])
      {
        if p[i] != MAGIC[0] {
          OtherLetter(p[i..]);
          GarbageRun(p[i..], 1);
          assert p[i..][1..] == p[i + 1..];
          i := i + 1;
        } else {
          var matched := Match(p, i);
          assert p[i..][..matched] == p[i..i + matched];
          Candidate(p[i..], matched);
          if i + matched == |p| && matched < 4 {
            return false, i;
          }
          if matched == 4 {
            return true, i;
          }
          var jump := if p[i + matched] == MAGIC[0] then matched else matched + 1;
          assert p[i..][jump..] == p[i + jump..];
          i := i + jump;
        }
      }
      return false, |p|;
    }

    method Match(p: seq<byte>, i: nat) returns (matched: nat)
      requires i < |p| && p[i] == MAGIC[0]
      ensures 1 <= matched <= 4 && i + matched <= |p| && p[i..i + matched] == MAGIC[..matched]
      ensures matched < 4 && i + matched < |p| ==> p[i + matched] != MAGIC[matched]
    {
      matched := 1;
      while matched < 4 && i + matched < |p| && p[i + matched] == MAGIC[matched]
        invariant 1 <= matched <= 4 && i + matched <= |p| && p[i..i + matched] == MAGIC[..matched]
      {
        assert p[i..i + matched + 1] == p[i..i + matched] + [p[i + matched]];
        assert MAGIC[..matched + 1] == MAGIC[..matched] + [MAGIC[matched]];
        matched := matched + 1;
      }
    }
  }

  /** The buffer starts with an acceptable header, and h is it. */
  predicate HeaderIsGood(b: seq<byte>, h: PacketHeader) {
    && |b| >= HEADER_LEN && b[4] == 1 && 1 <= b[5] <= 0x51 && ReadU32(b, 10) <= MAX_PAYLOAD && h == ParseHeader(b)
  }

  lemma GrowKeepsHeader(b: seq<byte>, data: seq<byte>, h: PacketHeader)
    ensures |b| >= 4 ==> (b + data)[..4] == b[..4]
    ensures HeaderIsGood(b, h) ==> HeaderIsGood(b + data, h)
  {
  }

  lemma RestingIsDone(d: Decoder)
    requires Resting(d)
    ensures Decode(d) == ([], d)
  {
    DecodeOne(d);
    hide One, Garbage;
    assert d.buf[0..] == d.buf;
  }

  lemma GarbageFree(d: Decoder)
    ensures Decode(d.(buf := d.buf[Garbage(d.buf)..])) == Decode(d)
  {
    hide Garbage, Decode;
    DropFirst(d, []);
    var b := d.buf[Garbage(d.buf)..];
    assert b + [] == b && d.buf + [] == d.buf;
    assert Messages.Fed(d.(buf := b), []) == d.(buf := b) && Messages.Fed(d, []) == d;
  }

  lemma ShortRests(d: Decoder)
    requires Garbage(d.buf) == 0 && |d.buf| < HEADER_LEN
    ensures Resting(d)
  {
    hide Garbage;
    assert d.buf[0..] == d.buf;
  }

  lemma GarbageStep(b: seq<byte>)
    requires b != [] && !Plausible(b)
    ensures Garbage(b) == 1 + Garbage(b[1..])
  {
    hide Plausible;
  }

  lemma OtherLetter(b: seq<byte>)
    requires b != [] && b[0] != MAGIC[0]
    ensures !Plausible(b)
  {
  }

  /** A jump is safe: nothing it passes over can begin a packet, because the letters of the magic are distinct. */
  lemma {:induction false} GarbageRun(b: seq<byte>, k: nat)
    requires 1 <= k <= |b| && !Plausible(b)
    requires forall j | 0 < j < k :: b[j] != MAGIC[0]
    ensures Garbage(b) == k + Garbage(b[k..])
    decreases k
  {
    hide Plausible, Garbage;
    GarbageStep(b);
    if k > 1 {
      OtherLetter(b[1..]);
      GarbageRun(b[1..], k - 1);
      assert b[1..][k - 1..] == b[k..];
    }
  }

  /** What the comparison with the magic has found out about a candidate. */
  lemma Candidate(b: seq<byte>, matched: nat)
    requires 1 <= matched <= 4 && matched <= |b| && b[..matched] == MAGIC[..matched]
    ensures matched == 4 ==> Garbage(b) == 0 && b[..4] == MAGIC
    ensures matched == |b| ==> Garbage(b) == 0
    ensures matched < 4 && matched < |b| && b[matched] != MAGIC[matched] ==>
              var jump := if b[matched] == MAGIC[0] then matched else matched + 1;
              Garbage(b) == jump + Garbage(b[jump..])
  {
    forall k | 0 <= k < matched ensures b[k] == MAGIC[k] {
      assert b[..matched][k] == MAGIC[..matched][k];
    }
    if matched < 4 && matched < |b| && b[matched] != MAGIC[matched] {
      hide Plausible, Garbage;
      Mismatch(b, matched);
      GarbageRun(b, if b[matched] == MAGIC[0] then matched else matched + 1);
    }
  }

  lemma Mismatch(b: seq<byte>, k: nat)
    requires k < 4 && k < |b| && b[k] != MAGIC[k]
    ensures !Plausible(b)
  {
  }

  lemma MagicIsClean(b: seq<byte>)
    requires |b| >= 4 && b[..4] == MAGIC
    ensures Garbage(b) == 0 && b[0..] == b
  {
    forall i | 0 <= i < 4 ensures b[i] == MAGIC[i] {
      assert b[..4][i] == b[i];
    }
  }

  lemma OwedOne(events: seq<Event>, d: Decoder)
    requires One(d).Some?
    ensures Owed(events, d) == Owed(events + One(d).value.0, One(d).value.1)
  {
    hide One, Decode;
    DecodeOne(d);
    var r := One(d).value;
    assert events + (r.0 + Decode(r.1).0) == events + r.0 + Decode(r.1).0;
  }

  lemma BadHeaderIsOne(d: Decoder)
    requires |d.buf| >= HEADER_LEN && d.buf[..4] == MAGIC
    requires d.buf[4] != 1 || d.buf[5] < 1 || d.buf[5] > 0x51 || ReadU32(d.buf, 10) > MAX_PAYLOAD
    ensures One(d) == Some(([Failed(HeaderError(d.buf))], d.(buf := d.buf[1..])))
  {
    hide ReadU32, Garbage, HeaderError;
    MagicIsClean(d.buf);
  }

  lemma IncompleteRests(d: Decoder, h: PacketHeader)
    requires |d.buf| >= 4 && d.buf[..4] == MAGIC && HeaderIsGood(d.buf, h) && |d.buf| < HEADER_LEN + h.length
    ensures Resting(d)
  {
    hide ReadU32, ReadU16, Garbage;
    MagicIsClean(d.buf);
  }

  lemma CompleteIsOne(d: Decoder, h: PacketHeader)
    requires |d.buf| >= 4 && d.buf[..4] == MAGIC && HeaderIsGood(d.buf, h) && |d.buf| >= HEADER_LEN + h.length
    ensures var size := HEADER_LEN + h.length;
            var payload, rest := d.buf[HEADER_LEN..size], d.buf[size..];
            var r := Judge(d, h, payload, Crc32(d.buf[..14] + payload) == h.crc);
            One(d) == Some((r.0, r.1.(buf := rest)))
  {
    hide ReadU32, ReadU16, Garbage, Crc32, Assemble;
    MagicIsClean(d.buf);
    LookComplete(d.buf, h.length);
  }
}
