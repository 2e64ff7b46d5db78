/** The physical preview on the PC (pc/src/physical_preview_state.cpp:14-97): frames numbered modulo 2^16 that may come
    late, twice or out of order, compared as in section 3.2 of RFC 1982. */
module Previews {
  import opened Wire

  datatype Preview = Preview(connected: bool, received: bool, frameId: u16, width: u16, height: u16, format: byte,
                             pixels: seq<byte>, updatedMs: nat)

  function Needed(width: u16, height: u16): nat { (width * height + 7) / 8 }

  /** The two's complement reading of 16 bits. */
  function ToI16(v: u16): int { if v < 0x8000 then v else v - 0x1_0000 }

  predicate AcceptsId(p: Preview, id: u16) {
    !p.received || ToI16((id - p.frameId) % 0x1_0000) > 0
  }

  datatype Shot = Shot(width: u16, height: u16, format: byte, pixels: seq<byte>, now: nat)

  predicate WellFormed(f: Shot) { f.width != 0 && f.height != 0 && |f.pixels| >= Needed(f.width, f.height) }

  function Shown(p: Preview, id: u16, f: Shot): (bool, Preview) {
    if WellFormed(f) && AcceptsId(p, id)
    then (true, Preview(p.connected, true, id, f.width, f.height, f.format, f.pixels, f.now))
    else (false, p)
  }

  predicate Available(p: Preview) { p.pixels != [] && p.connected }

  predicate Stale(p: Preview, now: nat, thresholdMs: nat) {
    Available(p) && now >= p.updatedMs && now - p.updatedMs > thresholdMs
  }

  class PhysicalPreviewState {
    const staleThresholdMs: nat
    var sessionConnected: bool
    var receivedAnyFrame: bool
    var frameId: u16
    var width: u16
    var height: u16
    var pixelFormat: byte
    var pixels: seq<byte>
    var lastUpdateMs: nat

    ghost function Now(): Preview
      reads this
    {
      Preview(sessionConnected, receivedAnyFrame, frameId, width, height, pixelFormat, pixels, lastUpdateMs)
    }

    constructor (staleThresholdMs: nat)
      ensures Now() == Preview(false, false, 0, 0, 0, 0, [], 0) && this.staleThresholdMs == staleThresholdMs
    {
      this.staleThresholdMs := staleThresholdMs;
      sessionConnected, receivedAnyFrame, frameId, width, height := false, false, 0, 0, 0;
      pixelFormat, pixels, lastUpdateMs := 0, [], 0;
    }

    /** A new session takes its first frame whatever its number. */
    method SetSessionConnected(connected: bool)
      modifies this
      ensures Now() == old(Now()).(connected := connected, received := false)
    {
      sessionConnected, receivedAnyFrame := connected, false;
    }

    method OnDisconnected()
      modifies this
      ensures Now() == Preview(false, false, 0, 0, 0, 0, [], 0)
    {
      sessionConnected, pixels, lastUpdateMs := false, [], 0;
      frameId, width, height, pixelFormat := 0, 0, 0, 0;
      receivedAnyFrame := false;
    }

    method AcceptFrameId(id: u16) returns (ok: bool)
      ensures ok <==> AcceptsId(Now(), id)
    {
      if !receivedAnyFrame {
        return true;
      }
      var diff := ToI16((id - frameId) % 0x1_0000);
      ok := diff > 0;
    }

    method SetFrame(id: u16, f: Shot) returns (ok: bool)
      modifies this
      ensures (ok, Now()) == Shown(old(Now()), id, f)
    {
      if f.width == 0 || f.height == 0 {
        return false;
      }
      if |f.pixels| < Needed(f.width, f.height) {
        return false;
      }
      var fresher := AcceptFrameId(id);
      if !fresher {
        return false;
      }
      frameId, width, height, pixelFormat := id, f.width, f.height, f.format;
      pixels, lastUpdateMs := f.pixels, f.now;
      receivedAnyFrame := true;
      ok := true;
    }

    method IsStale(now: nat) returns (stale: bool)
      ensures stale <==> Stale(Now(), now, staleThresholdMs)
    {
      if pixels == [] || !sessionConnected || now < lastUpdateMs {
        return false;
      }
      stale := now - lastUpdateMs > staleThresholdMs;
    }
  }

  /** A frame is accepted exactly if it has a size, a bit for every pixel, and a newer number. The fewest bytes that do
      for a 128x64 display are 1024. */
  lemma ShownIff(p: Preview, id: u16, f: Shot)
    ensures Shown(p, id, f).0 <==> f.width > 0 && f.height > 0 && f.width * f.height <= 8 * |f.pixels| && AcceptsId(p, id)
    ensures Needed(128, 64) == 1024
  {
    EnoughIff(f.width * f.height, |f.pixels|);
  }

  /** A frame shown becomes stale when its threshold has passed; nothing shown never does. */
  lemma StaleAfterThreshold(p: Preview, id: u16, f: Shot, now: nat, thresholdMs: nat)
    requires p.connected && Shown(p, id, f).0 && f.pixels != []
    ensures Stale(Shown(p, id, f).1, now, thresholdMs) <==> now > f.now + thresholdMs
    ensures !Stale(Preview(false, false, 0, 0, 0, 0, [], 0), now, thresholdMs)
  {
  }

  lemma EnoughIff(bits: nat, bytes: nat)
    ensures bytes >= (bits + 7) / 8 <==> bits <= 8 * bytes
  {
  }

  // ---- frames with a true counter ----

  /** A frame as delivered, with the number it had before it was cut to 16 bits. */
  datatype Delivery = Delivery(counter: nat, shot: Shot)

  function Deliver(p: Preview, d: Delivery): (bool, Preview) { Shown(p, d.counter % 0x1_0000, d.shot) }

  /** A session with these deliveries, from its start. */
  function After(ds: seq<Delivery>): Preview {
    if ds == [] then Preview(true, false, 0, 0, 0, 0, [], 0)
    else Deliver(After(ds[..|ds| - 1]), ds[|ds| - 1]).1
  }

  function Accepted(ds: seq<Delivery>): seq<Delivery> {
    if ds == [] then []
    else
      var n := |ds| - 1;
      Accepted(ds[..n]) + if Deliver(After(ds[..n]), ds[n]).0 then [ds[n]] else []
  }

  function Newest(accepted: seq<Delivery>): Delivery
    requires accepted != []
  {
    accepted[|accepted| - 1]
  }

  predicate Newer(d: Delivery, accepted: seq<Delivery>) {
    accepted == [] || d.counter > Newest(accepted).counter
  }

  /** No well-formed frame is further than half the number range from the last one accepted. */
  ghost predicate InWindow(ds: seq<Delivery>) {
    forall k | 0 <= k < |ds| && WellFormed(ds[k].shot) && Accepted(ds[..k]) != [] ::
      -0x8000 <= ds[k].counter - Newest(Accepted(ds[..k])).counter < 0x8000
  }

  lemma DifferenceModulo(a: nat, b: nat)
    ensures (a % 0x1_0000 - b % 0x1_0000) % 0x1_0000 == (a - b) % 0x1_0000
  {
    var q := a / 0x1_0000 - b / 0x1_0000;
    assert a - b == 0x1_0000 * q + (a % 0x1_0000 - b % 0x1_0000);
  }

  lemma SerialOrder(a: nat, b: nat)
    requires -0x8000 <= a - b < 0x8000
    ensures ToI16((a % 0x1_0000 - b % 0x1_0000) % 0x1_0000) > 0 <==> a > b
  {
    DifferenceModulo(a, b);
    var d := a - b;
    assert d % 0x1_0000 == if d >= 0 then d else d + 0x1_0000;
  }

  /** The window cannot be wider: half a range ahead is taken for old. */
  lemma HalfRangeAheadIsRejected(p: Preview, b: nat)
    requires p.received && p.frameId == b % 0x1_0000
    ensures !AcceptsId(p, (b + 0x8000) % 0x1_0000)
  {
    DifferenceModulo(b + 0x8000, b);
  }

  /** What is shown is the last frame accepted. */
  lemma {:induction false} ShowsNewest(ds: seq<Delivery>)
    ensures var p, a := After(ds), Accepted(ds);
            && p.connected && (p.received <==> a != [])
            && (a != [] ==> var f := Newest(a).shot;
                  p == Preview(true, true, Newest(a).counter % 0x1_0000, f.width, f.height, f.format, f.pixels, f.now))
    decreases |ds|
  {
    hide AcceptsId, WellFormed;
    if ds != [] {
      ShowsNewest(ds[..|ds| - 1]);
    }
  }

  lemma InWindowPrefix(ds: seq<Delivery>, n: nat)
    requires InWindow(ds) && n <= |ds|
    ensures InWindow(ds[..n])
  {
    forall k | 0 <= k < n ensures ds[..n][..k] == ds[..k] {
    }
  }

  /** A well-formed frame is accepted exactly if its true counter is larger than that of the last one accepted. */
  lemma AcceptedIffNewer(ds: seq<Delivery>, k: nat)
    requires InWindow(ds) && k < |ds|
    ensures Deliver(After(ds[..k]), ds[k]).0 <==> WellFormed(ds[k].shot) && Newer(ds[k], Accepted(ds[..k]))
  {
    hide After, Accepted, WellFormed;
    ShowsNewest(ds[..k]);
    if Accepted(ds[..k]) != [] && WellFormed(ds[k].shot) {
      SerialOrder(ds[k].counter, Newest(Accepted(ds[..k])).counter);
    }
  }

  ghost predicate Increasing(ds: seq<Delivery>) {
    forall i, j | 0 <= i < j < |ds| :: ds[i].counter < ds[j].counter
  }

  /** Over any number of wraps the accepted frames increase strictly, and the one shown is the newest well-formed frame
      delivered in this session. */
  lemma {:induction false} PreviewOnlyMovesForward(ds: seq<Delivery>)
    requires InWindow(ds)
    ensures Increasing(Accepted(ds))
    ensures forall k | 0 <= k < |ds| && WellFormed(ds[k].shot) ::
              Accepted(ds) != [] && ds[k].counter <= Newest(Accepted(ds)).counter
    decreases |ds|
  {
    hide After, Deliver, WellFormed;
    if ds != [] {
      var n := |ds| - 1;
      InWindowPrefix(ds, n);
      PreviewOnlyMovesForward(ds[..n]);
      AcceptedIffNewer(ds, n);
      forall k | 0 <= k < |ds| && WellFormed(ds[k].shot)
        ensures Accepted(ds) != [] && ds[k].counter <= Newest(Accepted(ds)).counter
      {
        if k < n {
          assert ds[..n][k] == ds[k];
        }
      }
    }
  }
}
