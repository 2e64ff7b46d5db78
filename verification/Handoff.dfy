/** The UART-to-TCP handoff (esp32/main/main.cpp:838-958): a latch and two timers driven by a tick, and what holds of
    every run of ticks. */
module Handoffs {
  import opened Wire

  const PHASE_GOT_IP: byte := 5
  const PHASE_TCP_CONNECTING: byte := 6
  const PHASE_TCP_CONNECTED: byte := 7
  const PHASE_ERROR: byte := 8
  const PHASE_CLEARED: byte := 9

  const CONNECT_TIMEOUT_MS := 15000
  const DROP_TIMEOUT_MS := 30000
  const U64_RANGE := 0x1_0000_0000_0000_0000

  datatype Stage = Idle | Connecting | Connected

  datatype Link = LinkDisconnected | LinkConnecting | LinkConnected | LinkError

  /** What a tick reads: the clock, the provisioning status, the transport and session states, whether TCP is the
      current transport, and whether switchTo(kTcp) would succeed. */
  datatype Input = Input(now: nat, phase: byte, serverIp: u32, serverPort: u16, link: Link, session: bool, onTcp: bool,
                         switchOk: bool)

  datatype Command = SwitchTcp | SwitchUart | SetTcpPhase(phase: byte) | SetServerUnreachable

  datatype State = State(stage: Stage, active: bool, disabled: bool, startMs: nat, ip: u32, port: u16)

  const START := State(Idle, false, false, 0, 0, 0)

  /** Unsigned 64-bit difference. */
  function Elapsed(now: nat, start: nat): nat { (now - start) % U64_RANGE }

  predicate Unlocks(i: Input) { i.phase < PHASE_GOT_IP || i.phase == PHASE_CLEARED }

  predicate Established(i: Input) { i.link == LinkConnected && i.session }

  // ---- one tick ----

  function Abort(s: State): (State, seq<Command>) {
    (s.(stage := Idle, active := false, disabled := true), [SwitchUart, SetServerUnreachable])
  }

  function Begin(s: State, i: Input): (State, seq<Command>) {
    if i.serverIp == 0 || i.serverPort == 0 then (s.(disabled := true), [SetServerUnreachable])
    else
      var s1 := s.(ip := i.serverIp, port := i.serverPort, active := true, startMs := i.now);
      var told := [SetTcpPhase(PHASE_TCP_CONNECTING), SwitchTcp];
      if i.switchOk then (s1.(stage := Connecting), told)
      else (Abort(s1).0, told + Abort(s1).1)
  }

  function TickIdle(s: State, i: Input): (State, seq<Command>) {
    var s1 := if Unlocks(i) then s.(disabled := false) else s;
    var told := if !Unlocks(i) && s.disabled && i.session && i.phase != PHASE_ERROR then [SetServerUnreachable] else [];
    if i.phase == PHASE_GOT_IP && !i.onTcp && !s1.disabled then (Begin(s1, i).0, told + Begin(s1, i).1) else (s1, told)
  }

  function TickConnecting(s: State, i: Input): (State, seq<Command>) {
    if Established(i) then (s.(stage := Connected, startMs := i.now), [SetTcpPhase(PHASE_TCP_CONNECTED)])
    else if Elapsed(i.now, s.startMs) >= CONNECT_TIMEOUT_MS then Abort(s)
    else (s, [])
  }

  predicate InTcpWindow(phase: byte) { PHASE_GOT_IP <= phase <= PHASE_TCP_CONNECTED }

  function TickConnected(s: State, i: Input): (State, seq<Command>) {
    var s1 := if i.link == LinkConnected then s.(startMs := i.now) else s;
    var told :=
      if !InTcpWindow(i.phase) then []
      else if i.link != LinkConnected then [SetTcpPhase(PHASE_TCP_CONNECTING)]
      else if i.session && i.phase != PHASE_TCP_CONNECTED then [SetTcpPhase(PHASE_TCP_CONNECTED)]
      else [];
    if Elapsed(i.now, s1.startMs) >= DROP_TIMEOUT_MS then (Abort(s1).0, told + Abort(s1).1) else (s1, told)
  }

  function Tick(s: State, i: Input): (State, seq<Command>) {
    match s.stage
    case Idle => TickIdle(s, i)
    case Connecting => TickConnecting(s, i)
    case Connected => TickConnected(s, i)
  }

  /** The globals of the source and the functions that change them. */
  class Handoff {
    var stage: Stage
    var active: bool
    var disabled: bool
    var startMs: nat
    var ip: u32
    var port: u16
    var commands: seq<Command>  // what the transport manager and the provisioning service were told

    ghost function Now(): State
      reads this
    {
      State(stage, active, disabled, startMs, ip, port)
    }

    constructor ()
      ensures Now() == START && commands == []
    {
      stage, active, disabled, startMs, ip, port, commands := Idle, false, false, 0, 0, 0, [];
    }

    method AbortTcpHandoff()
      modifies this
      ensures Now() == Abort(old(Now())).0 && commands == old(commands) + Abort(old(Now())).1
    {
      stage := Idle;
      active := false;
      disabled := true;
      commands := commands + [SwitchUart, SetServerUnreachable];
    }

    method BeginTcpHandoff(i: Input)
      modifies this
      ensures Now() == Begin(old(Now()), i).0 && commands == old(commands) + Begin(old(Now()), i).1
    {
      if i.serverIp == 0 || i.serverPort == 0 {
        disabled := true;
        commands := commands + [SetServerUnreachable];
        return;
      }
      ip, port := i.serverIp, i.serverPort;
      active := true;
      startMs := i.now;
      commands := commands + [SetTcpPhase(PHASE_TCP_CONNECTING), SwitchTcp];
      if !i.switchOk {
        AbortTcpHandoff();
        return;
      }
      stage := Connecting;
    }

    method TickTcpHandoff(i: Input)
      modifies this
      ensures Now() == Tick(old(Now()), i).0 && commands == old(commands) + Tick(old(Now()), i).1
    {
      match stage {
        case Idle => WhenIdle(i);
        case Connecting => WhenConnecting(i);
        case Connected => WhenConnected(i);
      }
    }

    method WhenIdle(i: Input)
      modifies this
      ensures Now() == TickIdle(old(Now()), i).0 && commands == old(commands) + TickIdle(old(Now()), i).1
    {
      hide Begin;
      if i.phase < PHASE_GOT_IP || i.phase == PHASE_CLEARED {
        disabled := false;
      } else if disabled && i.session && i.phase != PHASE_ERROR {
        commands := commands + [SetServerUnreachable];
      }
      if i.phase == PHASE_GOT_IP && !i.onTcp && !disabled {
        BeginTcpHandoff(i);
      }
    }

    method WhenConnecting(i: Input)
      modifies this
      ensures Now() == TickConnecting(old(Now()), i).0 && commands == old(commands) + TickConnecting(old(Now()), i).1
    {
      hide Elapsed, Abort;
      if i.link == LinkConnected {
        if i.session {
          commands := commands + [SetTcpPhase(PHASE_TCP_CONNECTED)];
          stage := Connected;
          startMs := i.now;
        } else if Elapsed(i.now, startMs) >= CONNECT_TIMEOUT_MS {
          AbortTcpHandoff();
        }
      } else if Elapsed(i.now, startMs) >= CONNECT_TIMEOUT_MS {
        AbortTcpHandoff();
      }
    }

    method WhenConnected(i: Input)
      modifies this
      ensures Now() == TickConnected(old(Now()), i).0 && commands == old(commands) + TickConnected(old(Now()), i).1
    {
      hide Elapsed, Abort;
      var inTcpWindow := i.phase == PHASE_GOT_IP || i.phase == PHASE_TCP_CONNECTING || i.phase == PHASE_TCP_CONNECTED;
      if i.link == LinkConnected {
        startMs := i.now;
        if inTcpWindow && i.session && i.phase != PHASE_TCP_CONNECTED {
          commands := commands + [SetTcpPhase(PHASE_TCP_CONNECTED)];
        }
      } else if inTcpWindow {
        commands := commands + [SetTcpPhase(PHASE_TCP_CONNECTING)];
      }
      if Elapsed(i.now, startMs) >= DROP_TIMEOUT_MS {
        AbortTcpHandoff();
      }
    }
  }

  // ---- whole runs ----

  function After(ins: seq<Input>): State {
    if ins == [] then START else Tick(After(ins[..|ins| - 1]), ins[|ins| - 1]).0
  }

  /** What tick k of the run did. */
  function Did(ins: seq<Input>, k: nat): seq<Command>
    requires k < |ins|
  {
    Tick(After(ins[..k]), ins[k]).1
  }

  predicate IsSwitch(c: Command) { c.SwitchTcp? || c.SwitchUart? }

  function OnlySwitches(cs: seq<Command>): seq<Command> {
    if cs == [] then [] else (if IsSwitch(cs[0]) then [cs[0]] else []) + OnlySwitches(cs[1..])
  }

  function Switches(ins: seq<Input>): seq<Command> {
    if ins == [] then []
    else Switches(ins[..|ins| - 1]) + OnlySwitches(Tick(After(ins[..|ins| - 1]), ins[|ins| - 1]).1)
  }

  lemma {:induction false} OnlyConcat(a: seq<Command>, b: seq<Command>)
    ensures OnlySwitches(a + b) == OnlySwitches(a) + OnlySwitches(b)
    decreases |a|
  {
    if a == [] {
      assert a + b == b;
    } else {
      assert (a + b)[1..] == a[1..] + b;
      OnlyConcat(a[1..], b);
      var first := if IsSwitch(a[0]) then [a[0]] else [];
      assert first + (OnlySwitches(a[1..]) + OnlySwitches(b)) == first + OnlySwitches(a[1..]) + OnlySwitches(b);
    }
  }

  lemma {:induction false} OnlyKeeps(a: seq<Command>, c: Command)
    requires IsSwitch(c)
    ensures c in a <==> c in OnlySwitches(a)
    decreases |a|
  {
    if a != [] {
      OnlyKeeps(a[1..], c);
      assert a == [a[0]] + a[1..];
    }
  }

  lemma OnlyOne(c: Command)
    ensures OnlySwitches([c]) == if IsSwitch(c) then [c] else []
  {
    assert [c][1..] == [];
  }

  lemma OnlyTwo(c: Command, d: Command)
    ensures OnlySwitches([c, d]) == (if IsSwitch(c) then [c] else []) + (if IsSwitch(d) then [d] else [])
  {
    OnlyOne(c);
    OnlyOne(d);
    OnlyConcat([c], [d]);
    assert [c, d] == [c] + [d];
  }

  lemma BeginSwitches(s: State, i: Input)
    ensures var (s', cs) := Begin(s, i);
            OnlySwitches(cs) == if s'.stage == Connecting && s.stage != Connecting then [SwitchTcp]
                                else if i.serverIp == 0 || i.serverPort == 0 then []
                                else if i.switchOk then [SwitchTcp] else [SwitchTcp, SwitchUart]
  {
    OnlyOne(SetServerUnreachable);
    OnlyTwo(SetTcpPhase(PHASE_TCP_CONNECTING), SwitchTcp);
    OnlyTwo(SwitchUart, SetServerUnreachable);
    OnlyConcat([SetTcpPhase(PHASE_TCP_CONNECTING), SwitchTcp], [SwitchUart, SetServerUnreachable]);
    hide OnlySwitches;
  }

  /** Which switches a tick makes: one to TCP out of idle, followed by one back if it fails; one back into idle. */
  function TickSwitchList(s: State, s': State, tried: bool): seq<Command> {
    if s.stage == Idle then (if tried then (if s'.stage == Connecting then [SwitchTcp] else [SwitchTcp, SwitchUart]) else [])
    else if s'.stage == Idle then [SwitchUart] else []
  }

  lemma TickSwitches(s: State, i: Input)
    ensures var (s', cs) := Tick(s, i);
            && OnlySwitches(cs) == TickSwitchList(s, s', SwitchTcp in cs)
            && (SwitchTcp in cs ==> s.stage == Idle && i.phase == PHASE_GOT_IP && !s.disabled
                                    && (s'.stage == Idle <==> !i.switchOk))
            && (SwitchUart in cs ==> s'.stage == Idle && s'.disabled)
            && (s.stage == Idle ==> s'.stage != Connected) && (s.stage == Idle && !(SwitchTcp in cs) ==> s'.stage == Idle)
            && (s'.active == s.active || SwitchTcp in cs || SwitchUart in cs)
  {
    hide OnlySwitches;
    var (s', cs) := Tick(s, i);
    OnlyKeeps(cs, SwitchTcp);
    OnlyKeeps(cs, SwitchUart);
    OnlyTwo(SwitchUart, SetServerUnreachable);
    OnlyNothing();
    match s.stage {
      case Idle =>
        var s1 := if Unlocks(i) then s.(disabled := false) else s;
        OnlyOne(SetServerUnreachable);
        BeginSwitches(s1, i);
        OnlyConcat([SetServerUnreachable], Begin(s1, i).1);
        OnlyConcat([], Begin(s1, i).1);
      case Connecting =>
        OnlyOne(SetTcpPhase(PHASE_TCP_CONNECTED));
      case Connected =>
        OnlyOne(SetTcpPhase(PHASE_TCP_CONNECTED));
        OnlyOne(SetTcpPhase(PHASE_TCP_CONNECTING));
        OnlyConcat([SetTcpPhase(PHASE_TCP_CONNECTED)], Abort(s).1);
        OnlyConcat([SetTcpPhase(PHASE_TCP_CONNECTING)], Abort(s).1);
        OnlyConcat([], Abort(s).1);
    }
  }

  lemma OnlyNothing()
    ensures OnlySwitches([]) == []
  {
  }

  lemma TickActive(s: State, i: Input)
    requires s.active <==> s.stage != Idle
    ensures Tick(s, i).0.active <==> Tick(s, i).0.stage != Idle
  {
    hide Elapsed;
  }

  ghost predicate Alternate(cs: seq<Command>) {
    forall k | 0 <= k < |cs| :: cs[k] == if k % 2 == 0 then SwitchTcp else SwitchUart
  }

  lemma AlternateNone()
    ensures Alternate([])
  {
  }

  lemma AlternateGrows(cs: seq<Command>, more: seq<Command>)
    requires Alternate(cs)
    requires more == [] || (|cs| % 2 == 0 && (more == [SwitchTcp] || more == [SwitchTcp, SwitchUart]))
             || (|cs| % 2 == 1 && more == [SwitchUart])
    ensures Alternate(cs + more)
  {
    forall k | 0 <= k < |cs + more| ensures (cs + more)[k] == if k % 2 == 0 then SwitchTcp else SwitchUart {
      assert k < |cs| ==> (cs + more)[k] == cs[k];
      assert k >= |cs| ==> (cs + more)[k] == more[k - |cs|];
    }
  }

  /** Switches to TCP and back alternate strictly, starting with TCP; between the two the handoff is not idle. */
  lemma {:induction false} SwitchesAlternate(ins: seq<Input>)
    ensures Alternate(Switches(ins)) && (|Switches(ins)| % 2 == 0 <==> After(ins).stage == Idle)
    ensures After(ins).active <==> After(ins).stage != Idle
    decreases |ins|
  {
    hide Tick, OnlySwitches, Alternate;
    if ins == [] {
      AlternateNone();
    } else {
      var n := |ins| - 1;
      var s := After(ins[..n]);
      SwitchesAlternate(ins[..n]);
      TickSwitches(s, ins[n]);
      TickActive(s, ins[n]);
      AlternateGrows(Switches(ins[..n]), TickSwitchList(s, Tick(s, ins[n]).0, SwitchTcp in Tick(s, ins[n]).1));
    }
  }

  // ---- the latch ----

  lemma {:induction false} StaysLocked(ins: seq<Input>, i: nat)
    requires i < |ins| && SwitchUart in Did(ins, i)
    requires forall k | i < k < |ins| :: !Unlocks(ins[k])
    ensures After(ins).stage == Idle && After(ins).disabled
    decreases |ins|
  {
    var n := |ins| - 1;
    if i < n {
      assert ins[..n][..i] == ins[..i];
      StaysLocked(ins[..n], i);
    } else {
      TickSwitches(After(ins[..n]), ins[n]);
    }
  }

  /** After a fallback to UART, TCP is tried again only behind a status below GOT_IP or CLEARED. */
  lemma RetryNeedsUnlock(ins: seq<Input>, i: nat, j: nat)
    requires i < j < |ins| && SwitchUart in Did(ins, i) && SwitchTcp in Did(ins, j)
    ensures exists k :: i < k < j && Unlocks(ins[k])
  {
    if forall k | i < k < j :: !Unlocks(ins[k]) {
      assert ins[..j][..i] == ins[..i];
      StaysLocked(ins[..j], i);
      assert false;
    }
  }

  // ---- the timers ----

  ghost predicate Clock(ins: seq<Input>) {
    forall j, k | 0 <= j <= k < |ins| :: ins[j].now <= ins[k].now < U64_RANGE
  }

  /** TCP was last tried at tick b, and no tick since has found both link and session up. */
  ghost predicate TryingSince(ins: seq<Input>, b: int) {
    && 0 <= b < |ins| && SwitchTcp in Did(ins, b) && After(ins).startMs == ins[b].now
    && forall k | b < k < |ins| :: !Established(ins[k]) && SwitchTcp !in Did(ins, k)
  }

  /** The link was up at tick c, and at no tick since. */
  ghost predicate UpUntil(ins: seq<Input>, c: int) {
    && 0 <= c < |ins| && ins[c].link == LinkConnected && After(ins).startMs == ins[c].now
    && forall k | c < k < |ins| :: ins[k].link != LinkConnected
  }

  lemma DidBefore(ins: seq<Input>, n: nat, k: nat)
    requires k < n <= |ins|
    ensures ins[..n][k] == ins[k] && Did(ins[..n], k) == Did(ins, k)
  {
    hide Tick, After;
    assert ins[..n][..k] == ins[..k];
  }

  /** A tick that leaves a stage as it is leaves its timer alone too, or restarts it because the link is up. */
  lemma TickTimer(s: State, i: Input)
    ensures var (s', cs) := Tick(s, i);
            && (s'.stage == Connecting ==>
                  if s.stage == Connecting then s'.startMs == s.startMs && !Established(i) && SwitchTcp !in cs
                  else SwitchTcp in cs && s'.startMs == i.now)
            && (s'.stage == Connected ==>
                  if i.link == LinkConnected then s'.startMs == i.now
                  else s.stage == Connected && s'.startMs == s.startMs)
  {
    hide Elapsed;
  }

  lemma {:induction false} TimerMeaning(ins: seq<Input>)
    ensures After(ins).stage == Connecting ==> exists b :: TryingSince(ins, b)
    ensures After(ins).stage == Connected ==> exists c :: UpUntil(ins, c)
    decreases |ins|
  {
    if ins != [] {
      hide Tick, Did, TryingSince, UpUntil;
      var n := |ins| - 1;
      var before := ins[..n];
      TimerMeaning(before);
      TickTimer(After(before), ins[n]);
      DidLast(ins);
      if After(ins).stage == Connecting {
        if After(before).stage == Connecting {
          var b :| TryingSince(before, b);
          TryingStill(ins, b);
        } else {
          assert TryingSince(ins, n) by { JustTried(ins); }
        }
      }
      if After(ins).stage == Connected {
        if ins[n].link == LinkConnected {
          assert UpUntil(ins, n) by { JustUp(ins); }
        } else {
          var c :| UpUntil(before, c);
          UpStill(ins, c);
        }
      }
    }
  }

  lemma TryingStill(ins: seq<Input>, b: int)
    requires ins != [] && TryingSince(ins[..|ins| - 1], b) && After(ins).startMs == After(ins[..|ins| - 1]).startMs
    requires !Established(ins[|ins| - 1]) && SwitchTcp !in Did(ins, |ins| - 1)
    ensures TryingSince(ins, b)
  {
    hide Did, After, Established;
    var n := |ins| - 1;
    DidBefore(ins, n, b);
    forall k: nat | b < k < |ins| ensures !Established(ins[k]) && SwitchTcp !in Did(ins, k) {
      if k < n {
        DidBefore(ins, n, k);
      }
    }
  }

  lemma JustTried(ins: seq<Input>)
    requires ins != [] && SwitchTcp in Did(ins, |ins| - 1) && After(ins).startMs == ins[|ins| - 1].now
    ensures TryingSince(ins, |ins| - 1)
  {
  }

  lemma JustUp(ins: seq<Input>)
    requires ins != [] && ins[|ins| - 1].link == LinkConnected && After(ins).startMs == ins[|ins| - 1].now
    ensures UpUntil(ins, |ins| - 1)
  {
  }

  lemma UpStill(ins: seq<Input>, c: int)
    requires ins != [] && UpUntil(ins[..|ins| - 1], c) && After(ins).startMs == After(ins[..|ins| - 1]).startMs
    requires ins[|ins| - 1].link != LinkConnected
    ensures UpUntil(ins, c)
  {
    hide After;
  }

  lemma DidLast(ins: seq<Input>)
    requires ins != []
    ensures Did(ins, |ins| - 1) == Tick(After(ins[..|ins| - 1]), ins[|ins| - 1]).1
  {
  }

  lemma AbortIff(s: State, i: Input)
    ensures SwitchUart in Tick(s, i).1 <==>
            match s.stage
            case Idle => SwitchTcp in Tick(s, i).1 && !i.switchOk
            case Connecting => !Established(i) && Elapsed(i.now, s.startMs) >= CONNECT_TIMEOUT_MS
            case Connected => i.link != LinkConnected && Elapsed(i.now, s.startMs) >= DROP_TIMEOUT_MS
  {
    assert Elapsed(i.now, i.now) == 0;
    hide Elapsed;
  }

  lemma ElapsedIsDifference(now: nat, start: nat)
    requires start <= now < U64_RANGE
    ensures Elapsed(now, start) == now - start
  {
  }

  /** The attempt of tick b, the last one, has not come up by tick j, 15 s later or more. */
  ghost predicate NeverUp(ins: seq<Input>, b: int, j: nat)
    requires j < |ins|
  {
    && 0 <= b < j && SwitchTcp in Did(ins, b) && ins[j].now - ins[b].now >= CONNECT_TIMEOUT_MS
    && (forall k | b < k <= j :: !Established(ins[k])) && (forall k | b < k < j :: SwitchTcp !in Did(ins, k))
  }

  /** The link was up at tick c and at no tick since, up to tick j, 30 s later or more. */
  ghost predicate LostSince(ins: seq<Input>, c: int, j: nat)
    requires j < |ins|
  {
    && 0 <= c < j && ins[c].link == LinkConnected && ins[j].now - ins[c].now >= DROP_TIMEOUT_MS
    && forall k | c < k <= j :: ins[k].link != LinkConnected
  }

  lemma LastAttempt(ins: seq<Input>, b: int, c: int)
    requires TryingSince(ins, b) && 0 <= c < |ins| && SwitchTcp in Did(ins, c)
    requires forall k | c < k < |ins| :: SwitchTcp !in Did(ins, k)
    ensures b == c
  {
  }

  lemma LastUp(ins: seq<Input>, c: int, d: int)
    requires UpUntil(ins, c) && 0 <= d < |ins| && ins[d].link == LinkConnected
    requires forall k | d < k < |ins| :: ins[k].link != LinkConnected
    ensures c == d
  {
  }

  /** Tick j goes back to UART exactly if its own attempt to switch failed, or a first connection has not come up for 15 s
      since the attempt, or an established one has had no link for 30 s since it last had one. */
  lemma AbandonedIff(ins: seq<Input>, j: nat)
    requires j < |ins| && Clock(ins)
    ensures SwitchUart in Did(ins, j) <==>
            match After(ins[..j]).stage
            case Idle => SwitchTcp in Did(ins, j) && !ins[j].switchOk
            case Connecting => exists b :: NeverUp(ins, b, j)
            case Connected => exists c :: LostSince(ins, c, j)
  {
    hide Elapsed, After, Tick;
    var before := ins[..j];
    TimerMeaning(before);
    AbortIff(After(before), ins[j]);
    assert Did(ins, j) == Tick(After(before), ins[j]).1;
    forall k: nat | k < j ensures before[k] == ins[k] && Did(before, k) == Did(ins, k) {
      DidBefore(ins, j, k);
    }
    hide Did;
    match After(before).stage {
      case Idle =>
      case Connecting =>
        var b :| TryingSince(before, b);
        ElapsedIsDifference(ins[j].now, ins[b].now);
        if SwitchUart in Did(ins, j) {
          assert NeverUp(ins, b, j);
        } else if c :| NeverUp(ins, c, j) {
          LastAttempt(before, b, c);
        }
      case Connected =>
        var c :| UpUntil(before, c);
        ElapsedIsDifference(ins[j].now, ins[c].now);
        if SwitchUart in Did(ins, j) {
          assert LostSince(ins, c, j);
        } else if d :| LostSince(ins, d, j) {
          LastUp(before, c, d);
        }
    }
  }

  // ---- attempts ----

  /** Tick k would have tried TCP but had no server to try. */
  predicate NoTarget(ins: seq<Input>, k: nat)
    requires k < |ins|
  {
    After(ins[..k]).stage == Idle && ins[k].phase == PHASE_GOT_IP && !ins[k].onTcp
    && (ins[k].serverIp == 0 || ins[k].serverPort == 0)
  }

  predicate Locks(ins: seq<Input>, k: nat)
    requires k < |ins|
  {
    SwitchUart in Did(ins, k) || NoTarget(ins, k)
  }

  /** TCP was given up, or had no target, at some tick, and no status since has unlocked it. */
  ghost predicate Locked(ins: seq<Input>) {
    exists k :: 0 <= k < |ins| && Locks(ins, k) && forall m | k < m < |ins| :: !Unlocks(ins[m])
  }

  lemma TickLocks(s: State, i: Input)
    ensures var (s', cs) := Tick(s, i);
            var missed := s.stage == Idle && i.phase == PHASE_GOT_IP && !i.onTcp && (i.serverIp == 0 || i.serverPort == 0);
            && (SwitchUart in cs || missed ==> s'.disabled)
            && (s'.disabled ==> SwitchUart in cs || missed || s.disabled)
            && (s.disabled && !Unlocks(i) ==> s'.disabled)
            && (s.stage == Idle && s'.disabled && !(SwitchUart in cs || missed) ==> !Unlocks(i))
            && (s'.stage != Idle && (s.stage == Idle || !s.disabled) ==> !s'.disabled)
  {
    hide Elapsed;
  }

  /** One tick more: locked by it, or before it and not unlocked by it. */
  lemma LockedOn(ins: seq<Input>)
    requires ins != []
    ensures var n := |ins| - 1; Locked(ins) <==> Locks(ins, n) || (Locked(ins[..n]) && !Unlocks(ins[n]))
  {
    hide Locks, Unlocks;
    var n := |ins| - 1;
    var before := ins[..n];
    if Locked(ins) && !Locks(ins, n) {
      var k :| 0 <= k < |ins| && Locks(ins, k) && forall m | k < m < |ins| :: !Unlocks(ins[m]);
      LocksBefore(ins, n, k);
      assert Locked(before);
    }
    if Locked(before) && !Unlocks(ins[n]) {
      var k :| 0 <= k < n && Locks(before, k) && forall m | k < m < n :: !Unlocks(before[m]);
      LocksBefore(ins, n, k);
      forall m | k < m < |ins| ensures !Unlocks(ins[m]) {
        assert m < n ==> before[m] == ins[m];
      }
      assert Locked(ins);
    }
  }

  lemma LocksBefore(ins: seq<Input>, n: nat, k: nat)
    requires k < n <= |ins|
    ensures Locks(ins[..n], k) <==> Locks(ins, k)
  {
    hide Tick, After;
    assert ins[..n][..k] == ins[..k];
  }

  lemma LocksLast(ins: seq<Input>)
    requires ins != []
    ensures var n := |ins| - 1;
            var s, i := After(ins[..n]), ins[n];
            var missed := s.stage == Idle && i.phase == PHASE_GOT_IP && !i.onTcp && (i.serverIp == 0 || i.serverPort == 0);
            Locks(ins, n) <==> SwitchUart in Tick(s, i).1 || missed
  {
    hide Tick, After;
  }

  lemma {:induction false} LockedIff(ins: seq<Input>)
    ensures After(ins).disabled <==> Locked(ins)
    ensures After(ins).stage != Idle ==> !After(ins).disabled
    decreases |ins|
  {
    hide Tick, Locks, Unlocks;
    if ins != [] {
      var n := |ins| - 1;
      LockedIff(ins[..n]);
      LockedOn(ins);
      LocksLast(ins);
      TickLocks(After(ins[..n]), ins[n]);
      hide Locked;
    }
  }

  /** Tick j tries TCP exactly if none is under way, the status is GOT_IP, the transport is not TCP already, there is a
      server to try, and TCP is not locked out. The attempt is announced first, goes to that server, and leads on exactly
      if the switch succeeds. */
  lemma AttemptIff(ins: seq<Input>, j: nat)
    requires j < |ins|
    ensures var s, i, s' := After(ins[..j]), ins[j], Tick(After(ins[..j]), ins[j]).0;
            && (SwitchTcp in Did(ins, j) <==>
                  (s.stage == Idle && i.phase == PHASE_GOT_IP && !i.onTcp && i.serverIp != 0 && i.serverPort != 0
                   && !Locked(ins[..j])))
            && (SwitchTcp in Did(ins, j) ==>
                  && [SetTcpPhase(PHASE_TCP_CONNECTING), SwitchTcp] <= Did(ins, j)
                  && s'.ip == i.serverIp && s'.port == i.serverPort && s'.startMs == i.now
                  && (if i.switchOk then s'.stage == Connecting && s'.active else s'.stage == Idle && !s'.active))
  {
    LockedIff(ins[..j]);
  }

  // ---- what the wizard on the other side is told ----

  /** The phase and error announced by a tick. */
  lemma AnnouncesIff(s: State, i: Input)
    ensures var cs := Tick(s, i).1;
            && (SetTcpPhase(PHASE_TCP_CONNECTED) in cs <==>
                  (Established(i) && (s.stage == Connecting || (s.stage == Connected && (i.phase == 5 || i.phase == 6)))))
            && (SetTcpPhase(PHASE_TCP_CONNECTING) in cs <==>
                  (SwitchTcp in cs || (s.stage == Connected && i.link != LinkConnected && 5 <= i.phase <= 7)))
            && (SetServerUnreachable in cs <==>
                  (SwitchUart in cs
                   || (s.stage == Idle && s.disabled && i.session && (5 <= i.phase <= 7 || i.phase > 9))
                   || (s.stage == Idle && !s.disabled && i.phase == 5 && !i.onTcp
                       && (i.serverIp == 0 || i.serverPort == 0))))
            && (forall p | SetTcpPhase(p) in cs :: p == 6 || p == 7)
  {
    hide Elapsed;
  }
}
