/** MessageEncoder (shared/protocol/encoder.cpp): a message cut into packets, from memory or pulled from a source in
    pieces of any size. Both are proved to hand the same packets to the sink. */
module MessageEncoders {
  import opened Wire
  import opened Packets
  import opened Messages

  /** IMessagePayloadSource: gives its data in order, at least one byte a read while there is any. */
  class PayloadSource {
    const data: seq<byte>
    const grain: nat -> nat  // one less than what the k-th read is willing to give
    var pos: nat
    var readCount: nat

    ghost predicate Valid()
      reads this
    {
      pos <= |data|
    }

    constructor (data: seq<byte>, grain: nat -> nat)
      ensures Valid() && pos == 0 && this.data == data && this.grain == grain
    {
      this.data, this.grain, pos, readCount := data, grain, 0, 0;
    }

    method Read(dst: array<byte>, offset: nat, maxBytes: nat) returns (n: nat)
      requires Valid() && offset + maxBytes <= dst.Length
      modifies this`pos, this`readCount, dst
      ensures Valid() && pos == old(pos) + n && n <= maxBytes
      ensures n == 0 <==> maxBytes == 0 || old(pos) == |data|
      ensures dst[..offset + n] == old(dst[..offset]) + data[old(pos)..pos]
    {
      n := Min(grain(readCount) + 1, Min(maxBytes, |data| - pos));
      for i := 0 to n
        invariant pos == old(pos) && dst[..offset + i] == old(dst[..offset]) + data[pos..pos + i]
      {
        dst[offset + i] := data[pos + i];
      }
      pos, readCount := pos + n, readCount + 1;
    }
  }

  function Min(a: nat, b: nat): nat { if a < b then a else b }

  datatype EncodeStatus = Ok | InvalidType | MessageTooLarge | SinkAborted | InvalidAckReq

  predicate AckReq(flags: byte) { flags / 2 % 2 == 1 }

  predicate MayRequestAck(kind: byte) { kind == 3 || kind == 6 || kind == 8 }

  /** What encodeStream refuses before sending anything. */
  function Refusal(m: Logical): Option<EncodeStatus> {
    if m.kind < 1 || m.kind > 0x51 then Some(InvalidType)
    else if |m.payload| > MAX_MESSAGE_PAYLOAD then Some(EncodeStatus.MessageTooLarge)
    else if AckReq(m.flags) && !MayRequestAck(m.kind) then Some(InvalidAckReq)
    else if AckReq(m.flags) && |m.payload| > MAX_PAYLOAD then Some(InvalidAckReq)
    else None
  }

  /** Every known type up to 1 MiB is encoded; an acknowledgement can be asked of SET_MODE,
      WIFI_SCAN_REQ and WIFI_CONFIG only, in one packet. */
  lemma EncodableIff(m: Logical)
    ensures Refusal(m).None? <==>
              1 <= m.kind <= 0x51 && |m.payload| <= 1048576
              && (m.flags % 4 >= 2 ==> (m.kind == 3 || m.kind == 6 || m.kind == 8) && |m.payload| <= 4096)
  {
  }

  /** From w0 and n0 the encoder has got to w and n: the first `sent` packets of ps went out, and a packet the sink
      refused has used up its number all the same. */
  ghost predicate Emitted(w0: seq<byte>, n0: u16, w: seq<byte>, n: u16, ps: seq<Packet>, sent: nat, aborted: bool)
    requires AllSized(ps) && sent <= |ps|
  {
    w == w0 + BuildAll(ps[..sent]) && n == (n0 + sent + if aborted then 1 else 0) % 0x1_0000
  }

  lemma EmittedNone(w0: seq<byte>, n0: u16, ps: seq<Packet>)
    requires AllSized(ps)
    ensures Emitted(w0, n0, w0, n0, ps, 0, false)
  {
    assert w0 + [] == w0;
  }

  lemma EmittedOne(w0: seq<byte>, n0: u16, w: seq<byte>, n: u16, ps: seq<Packet>, sent: nat)
    requires AllSized(ps) && sent < |ps| && Emitted(w0, n0, w, n, ps, sent, false)
    ensures Emitted(w0, n0, w + Build(ps[sent]), Messages.After(n), ps, sent + 1, false)
    ensures Emitted(w0, n0, w, Messages.After(n), ps, sent, true)
  {
    hide Build, BuildAll;
    BuildAllSnoc(ps, sent);
  }

  class MessageEncoder {
    const accepts: nat -> bool  // whether the sink takes the k-th packet offered
    var number: u16             // of the next packet
    var offered: nat
    var wire: seq<byte>         // what the sink has taken

    constructor (accepts: nat -> bool, number: u16)
      ensures this.accepts == accepts && this.number == number && wire == []
    {
      this.accepts, this.number, offered, wire := accepts, number, 0, [];
    }

    method Emit(p: Packet) returns (ok: bool)
      requires p.number == number && |p.payload| <= MAX_PAYLOAD
      modifies this
      ensures number == Messages.After(old(number))
      ensures wire == if ok then old(wire) + Build(p) else old(wire)
    {
      hide Build;
      number := (number + 1) % 0x1_0000;
      ok := accepts(offered);
      offered := offered + 1;
      if ok {
        wire := wire + Build(p);
      }
    }

    /** From memory. */
    method EncodeStream(m: Logical) returns (status: EncodeStatus, sent: nat)
      modifies this
      ensures Refusal(m).Some? ==> status == Refusal(m).value && wire == old(wire) && number == old(number)
      ensures Refusal(m).None? ==>
                && (status == Ok || status == SinkAborted)
                && sent <= |Split(m, old(number))| && (status == Ok <==> sent == |Split(m, old(number))|)
                && Emitted(old(wire), old(number), wire, number, Split(m, old(number)), sent, status == SinkAborted)
    {
      if m.kind < 1 || m.kind > 0x51 {
        return InvalidType, 0;
      }
      if |m.payload| > MAX_MESSAGE_PAYLOAD {
        return EncodeStatus.MessageTooLarge, 0;
      }
      if AckReq(m.flags) && !MayRequestAck(m.kind) {
        return InvalidAckReq, 0;
      }
      if AckReq(m.flags) && |m.payload| > MAX_PAYLOAD {
        return InvalidAckReq, 0;
      }
      status, sent := EncodeChunks(m);
    }

    /** One packet, or a loop over the chunks. */
    method EncodeChunks(m: Logical) returns (status: EncodeStatus, sent: nat)
      modifies this
      ensures status == Ok || status == SinkAborted
      ensures sent <= |Split(m, old(number))| && (status == Ok <==> sent == |Split(m, old(number))|)
      ensures Emitted(old(wire), old(number), wire, number, Split(m, old(number)), sent, status == SinkAborted)
    {
      hide Split, BuildAll, Build, Emitted;
      if |m.payload| > MAX_PAYLOAD {
        status, sent := EncodeLoop(m);
        return;
      }
      ghost var ps := Split(m, number);
      SplitFirst(m, number);
      EmittedNone(wire, number, ps);
      EmittedOne(wire, number, wire, number, ps, 0);
      assert m.payload[..|m.payload|] == m.payload;
      var ok := Emit(Packet(m.kind, Plain(m.flags), number, m.payload));
      status, sent := if ok then Ok else SinkAborted, if ok then 1 else 0;
    }

    method EncodeLoop(m: Logical) returns (status: EncodeStatus, sent: nat)
      requires m.payload != []
      modifies this
      ensures status == Ok || status == SinkAborted
      ensures sent <= |Split(m, old(number))| && (status == Ok <==> sent == |Split(m, old(number))|)
      ensures Emitted(old(wire), old(number), wire, number, Split(m, old(number)), sent, status == SinkAborted)
    {
      hide Split, BuildAll, Build, Emitted;
      ghost var ps := Split(m, number);
      var offset: nat := 0;
      sent := 0;
      EmittedNone(wire, number, ps);
      assert m.payload[0..] == m.payload;
      while offset < |m.payload|
        invariant offset <= |m.payload| && sent <= |ps| && (offset == |m.payload| <==> sent == |ps|)
        invariant Emitted(old(wire), old(number), wire, number, ps, sent, false)
        invariant offset < |m.payload| ==> Split(m.(payload := m.payload[offset..]), number) == ps[sent..]
      {
        var chunk := Min(MAX_PAYLOAD, |m.payload| - offset);
        var last := offset + chunk == |m.payload|;
        var flags := Plain(m.flags) + if last then 0 else FLAG_CHUNKED;
        var p := Packet(m.kind, flags, number, m.payload[offset..offset + chunk]);
        NextPacket(m, offset, number, ps, sent);
        EmittedOne(old(wire), old(number), wire, number, ps, sent);
        var ok := Emit(p);
        if !ok {
          return SinkAborted, sent;
        }
        sent, offset := sent + 1, offset + chunk;
      }
      status := Ok;
    }

    /** From a source: the same packets, whatever the sizes of its reads; a payload above the limit breaks off when the
        limit is reached. */
    method EncodeStreaming(kind: byte, flags: byte, src: PayloadSource) returns (status: EncodeStatus, sent: nat)
      requires src.Valid() && src.pos == 0
      modifies this, src`pos, src`readCount
      ensures kind < 1 || kind > 0x51 ==> status == InvalidType && wire == old(wire) && number == old(number)
      ensures 1 <= kind <= 0x51 && AckReq(flags) ==> status == InvalidAckReq && wire == old(wire) && number == old(number)
      ensures 1 <= kind <= 0x51 && !AckReq(flags) ==>
                var ps := Split(Logical(kind, flags, src.data), old(number));
                && sent <= |ps| && Emitted(old(wire), old(number), wire, number, ps, sent, status == SinkAborted)
                && (status == SinkAborted
                    || (if |src.data| <= MAX_MESSAGE_PAYLOAD then status == Ok && sent == |ps|
                        else status == EncodeStatus.MessageTooLarge && sent == MAX_MESSAGE_PAYLOAD / MAX_PAYLOAD < |ps|))
                && (status == SinkAborted ==> sent < |ps|)
    {
      if kind < 1 || kind > 0x51 {
        return InvalidType, 0;
      }
      if AckReq(flags) {
        return InvalidAckReq, 0;
      }
      status, sent := EncodePulled(kind, flags, src);
    }

    method EncodePulled(kind: byte, flags: byte, src: PayloadSource) returns (status: EncodeStatus, sent: nat)
      requires src.Valid() && src.pos == 0
      modifies this, src`pos, src`readCount
      ensures var ps := Split(Logical(kind, flags, src.data), old(number));
              && sent <= |ps| && Emitted(old(wire), old(number), wire, number, ps, sent, status == SinkAborted)
              && (status == SinkAborted
                  || (if |src.data| <= MAX_MESSAGE_PAYLOAD then status == Ok && sent == |ps|
                      else status == EncodeStatus.MessageTooLarge && sent == MAX_MESSAGE_PAYLOAD / MAX_PAYLOAD < |ps|))
              && (status == SinkAborted ==> sent < |ps|)
    {
      hide Split, BuildAll, Build, Emitted, Plain, Messages.After, Size;
      ghost var m, data := Logical(kind, flags, src.data), src.data;
      ghost var ps := Split(m, number);
      var staging, probe := new byte[MAX_PAYLOAD], new byte[1];
      var filled: nat, emitted: nat := 0, 0;
      sent := 0;
      EmittedNone(wire, number, ps);
      assert data[0..] == data && staging[..0] == data[0..0];
      while true
        invariant fresh(staging) && fresh(probe) && staging.Length == MAX_PAYLOAD && probe.Length == 1 && src.Valid()
        invariant emitted == MAX_PAYLOAD * sent <= MAX_MESSAGE_PAYLOAD && filled <= 1 && src.pos == emitted + filled
        invariant staging[..filled] == data[emitted..emitted + filled] && (filled == 0 ==> sent == 0)
        invariant sent < |ps| && Emitted(old(wire), old(number), wire, number, ps, sent, false)
        invariant Split(m.(payload := data[emitted..]), number) == ps[sent..]
        decreases |data| - emitted
      {
        var eof: bool;
        filled, eof := Fill(staging, filled, src, emitted);
        NextPacket(m, emitted, number, ps, sent);
        EmittedOne(old(wire), old(number), wire, number, ps, sent);
        var hasMore := Probe(probe, src, eof);
        assert hasMore <==> sent + 1 < |ps|;
        if emitted + filled > MAX_MESSAGE_PAYLOAD {
          return EncodeStatus.MessageTooLarge, sent;
        }
        var p := Packet(kind, Plain(flags) + if hasMore then FLAG_CHUNKED else 0, number, staging[..filled]);
        assert p == ps[sent];
        var ok := Emit(p);
        if !ok {
          return SinkAborted, sent;
        }
        emitted, sent := emitted + filled, sent + 1;
        if !hasMore {
          return Ok, sent;
        }
        CarryOver(staging, probe[0], data, emitted);
        filled := 1;
      }
    }

    /** The byte read ahead is the first of the next packet. */
    method CarryOver(staging: array<byte>, ahead: byte, ghost data: seq<byte>, ghost at: nat)
      requires staging.Length > 0 && at < |data| && data[at] == ahead
      modifies staging
      ensures staging[..1] == data[at..at + 1]
    {
      staging[0] := ahead;
    }

    /** Is there more? Reads one byte ahead to find out. */
    method Probe(probe: array<byte>, src: PayloadSource, eof: bool) returns (hasMore: bool)
      requires src.Valid() && probe.Length == 1 && (eof ==> src.pos == |src.data|)
      modifies probe, src`pos, src`readCount
      ensures src.Valid() && (hasMore <==> old(src.pos) < |src.data|)
      ensures src.pos == old(src.pos) + if hasMore then 1 else 0
      ensures hasMore ==> probe[0] == src.data[old(src.pos)]
    {
      hasMore := false;
      if !eof {
        var n := src.Read(probe, 0, 1);
        hasMore := n == 1;
        assert hasMore ==> probe[..1] == src.data[old(src.pos)..src.pos] && probe[..1][0] == src.data[old(src.pos)];
      }
    }

    /** Fills the payload of one packet, or stops at the end of the data. */
    method Fill(staging: array<byte>, begun: nat, src: PayloadSource, ghost from: nat) returns (filled: nat, eof: bool)
      requires src.Valid() && staging.Length == MAX_PAYLOAD && begun <= 1 && src.pos == from + begun
      requires staging[..begun] == src.data[from..from + begun]
      modifies staging, src`pos, src`readCount
      ensures src.Valid() && filled == Min(MAX_PAYLOAD, |src.data| - from) && src.pos == from + filled
      ensures staging[..filled] == src.data[from..from + filled]
      ensures eof ==> src.pos == |src.data|
      ensures !eof ==> filled == MAX_PAYLOAD
    {
      filled, eof := begun, false;
      while filled < MAX_PAYLOAD && !eof
        invariant src.Valid() && filled <= MAX_PAYLOAD && src.pos == from + filled
        invariant staging[..filled] == src.data[from..from + filled]
        invariant eof ==> src.pos == |src.data|
        decreases !eof, MAX_PAYLOAD - filled
      {
        var n := src.Read(staging, filled, MAX_PAYLOAD - filled);
        assert src.data[from..from + filled] + src.data[from + filled..src.pos] == src.data[from..src.pos];
        if n == 0 {
          eof := true;
        } else {
          filled := filled + n;
        }
      }
    }
  }

  /** The packet at the offset the sender has reached, and what comes after it. */
  lemma NextPacket(m: Logical, offset: nat, number: u16, ps: seq<Packet>, sent: nat)
    requires offset <= |m.payload| && sent < |ps| && Split(m.(payload := m.payload[offset..]), number) == ps[sent..]
    ensures var n := Min(MAX_PAYLOAD, |m.payload| - offset);
            var last := offset + n == |m.payload|;
            && ps[sent] == Packet(m.kind, Plain(m.flags) + (if last then 0 else FLAG_CHUNKED), number,
                                  m.payload[offset..offset + n])
            && (last <==> sent + 1 == |ps|)
            && (!last ==> Split(m.(payload := m.payload[offset + n..]), Messages.After(number)) == ps[sent + 1..])
  {
    hide Split;
    var n := Min(MAX_PAYLOAD, |m.payload| - offset);
    SplitFirst(m.(payload := m.payload[offset..]), number);
    assert m.payload[offset..][..n] == m.payload[offset..offset + n] && m.payload[offset..][n..] == m.payload[offset + n..];
    assert ps[sent..][0] == ps[sent] && ps[sent..][1..] == ps[sent + 1..];
  }

  lemma SplitFirst(m: Logical, number: u16)
    ensures var ps, n := Split(m, number), Min(MAX_PAYLOAD, |m.payload|);
            && ps[0] == Packet(m.kind, Plain(m.flags) + (if n == |m.payload| then 0 else FLAG_CHUNKED), number, m.payload[..n])
            && ps[1..] == (if n == |m.payload| then [] else Split(m.(payload := m.payload[n..]), Messages.After(number)))
  {
  }
}
