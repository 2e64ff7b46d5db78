/** IFrameSink (shared/display/remote_display.h:49-55) with an arbitrary scripted behaviour and a record of what it got. */
module FrameSinks {
  import opened Wire
  import opened SenderState
  import opened RectSources

  const MAX_PACKET_PAYLOAD: nat := 4096

  /** Each message meets the fate the script has for it. */
  class FrameSink {
    const script: Script
    var calls: nat
    ghost var log: seq<Entry>

    ghost predicate Valid()
      reads this
    {
      calls == |log|
    }

    constructor (script: Script)
      ensures Valid() && this.script == script && log == []
    {
      this.script := script;
      calls, log := 0, [];
    }

    method Send(msg: Message, ghost frame: nat) returns (ok: bool)
      requires Valid()
      modifies this
      ensures Valid()
      ensures var o := Fate(msg, script(|old(log)|));
              log == old(log) + [Sent(msg, o, frame)] && ok == o.Ok()
    {
      var o := Fate(msg, script(calls));
      calls, log := calls + 1, log + [Sent(msg, o, frame)];
      ok := o.Ok();
    }

    /** Drains the source packet by packet; what it pulls is the payload of the message it logs. */
    method SendStreaming(src: RectSource, ghost rect: Rect, ghost frame: nat) returns (ok: bool)
      requires Valid() && src.Valid() && src.pos == 0 && src.Total() == Payload(FrameRect(rect))
      modifies this, src`pos
      ensures Valid()
      ensures var o := Fate(FrameRect(rect), script(|old(log)|));
              log == old(log) + [Sent(FrameRect(rect), o, frame)] && ok == o.Ok()
    {
      var payload := Drain(src);
      assert |payload| == PayloadSize(FrameRect(rect));
      var o := FateBySize(|payload|, script(calls));
      calls, log := calls + 1, log + [Sent(FrameRect(rect), o, frame)];
      ok := o.Ok();
    }

    /** The session handshake restarts the receiver. */
    method Restart()
      requires Valid()
      modifies this
      ensures Valid() && log == old(log) + [SessionReset]
    {
      calls, log := calls + 1, log + [SessionReset];
    }
  }

  method Drain(src: RectSource) returns (payload: seq<byte>)
    requires src.Valid() && src.pos == 0
    modifies src`pos
    ensures payload == old(src.Total())
  {
    ghost var total := src.Total();
    hide Payload;
    var packet := new byte[MAX_PACKET_PAYLOAD];
    payload := [];
    var n: nat := src.Read(packet, 0, MAX_PACKET_PAYLOAD);
    while n > 0
      invariant fresh(packet) && packet.Length == MAX_PACKET_PAYLOAD
      invariant src.Valid() && n <= packet.Length && |payload| + n == src.pos && src.Total() == total
      invariant payload + packet[..n] == total[..src.pos]
      invariant n == 0 ==> src.pos == 8 + src.pixelBytes
      decreases 8 + src.pixelBytes - |payload|
    {
      payload := payload + packet[..n];
      ghost var pos := src.pos;
      n := src.Read(packet, 0, MAX_PACKET_PAYLOAD);
      Appended(total, pos, src.pos);
      assert packet[..n] == packet[0..0 + n];
    }
    assert packet[..n] == [];
    Complete(payload, total);
  }

  lemma Complete(payload: seq<byte>, total: seq<byte>)
    requires payload + [] == total[..|total|]
    ensures payload == total
  {
  }

  lemma Appended(total: seq<byte>, pos: nat, pos': nat)
    requires pos <= pos' <= |total|
    ensures total[..pos] + total[pos..pos'] == total[..pos']
  {
  }
}
