/** The commander: the one component that sends commands to the flight controller.
    Replies of the flight controller and the passing of time are inputs. */
module Commander {
  import opened Common
  import opened Machines = StateMachine
  import RateLimiter
  import AntiLoop

  /** The message that steers: a position that is always zero, and the yaw to turn to. */
  datatype Ned = Ned(north: real, east: real, down: real, yaw: real)

  /** What is sent to the flight controller, with the state it was sent in and the
      vehicle's own yaw at the time. */
  datatype FcCommand =
    | PositionTarget(at: int, state: SystemState, target: nat, heading: real, ned: Ned)
    | AbortRtl(at: int)

  /** hfov is the camera's horizontal angle of view in radians. */
  datatype Config = Config(guard: AntiLoop.Config, interval: int, hfov: real)

  predicate ValidConfig(cfg: Config) {
    cfg.interval > 0
  }

  /** The commander's state; log lists the commands sent so far. */
  datatype Cmdr = Cmdr(
    machine: Machine,
    guard: AntiLoop.State,
    limiter: RateLimiter.Limiter,
    active: Option<nat>,
    connected: bool,
    log: seq<FcCommand>,
    clock: int)

  /** How time passes during a call, the vehicle's yaw, and the flight controller's answer. */
  datatype Env = Env(toGuard: nat, toHandler: nat, toSend: nat, heading: real, fcOk: bool)

  datatype Action = DegradeAction | AbortAction

  predicate CanSteer(s: SystemState) {
    s == Tracking || s == TrackingDegraded
  }

  function Clamp(x: real): real {
    if x < -1.0 then -1.0 else if x > 1.0 then 1.0 else x
  }

  /** The camera transform: half the angle of view at the frame's edge, on top of the
      vehicle's yaw. The vertical offset plays no part. */
  function YawTo(cfg: Config, heading: real, x: real): real {
    heading + x * (cfg.hfov / 2.0)
  }

  const FRESH: Cmdr := Cmdr(Machine(Idle, 0, [Idle]), AntiLoop.INITIAL, RateLimiter.Limiter(None, 0, 0),
                            None, false, [], 0)

  function Connect(c: Cmdr, fcOk: bool): (Cmdr, bool) {
    if !fcOk then (c, false)
    else
      var (m, ok) := Try(c.machine, Armed);
      (c.(connected := true, machine := m), ok)
  }

  function Disarm(c: Cmdr, fcOk: bool): (Cmdr, bool) {
    if !c.connected || !fcOk then (c, false)
    else (c.(machine := Try(c.machine, Idle).0, active := None), true)
  }

  function StartScanning(c: Cmdr): (Cmdr, bool) {
    var (m, ok) := Try(c.machine, Scanning);
    if ok then (c.(machine := m, active := None), true) else (c, false)
  }

  function SelectTarget(c: Cmdr, id: nat): (Cmdr, bool) {
    var s := c.machine.state;
    if s == Scanning || s == Tracking || s == TrackingDegraded || s == Lost then
      var (m1, ok1) := Try(c.machine, TargetSelected);
      if !ok1 then (c, false)
      else
        var (m2, ok2) := Try(m1, Tracking);
        if !ok2 then (c.(machine := m1), false) else (c.(machine := m2, active := Some(id)), true)
    else (c, false)
  }

  function AbortNow(c: Cmdr, wait: nat, fcOk: bool): (Cmdr, bool) {
    var now := c.clock + wait;
    var aborted := c.(machine := Force(c.machine, Abort), limiter := RateLimiter.Force(c.limiter, now),
                      log := c.log + [AbortRtl(now)], clock := now);
    if fcOk then (aborted.(active := None), true) else (aborted, false)
  }

  function SendCorrection(cfg: Config, c: Cmdr, cmd: AntiLoop.Command, env: Env): (Cmdr, bool)
    requires c.active.Some?
  {
    var now := c.clock + env.toSend;
    var (l, ready) := RateLimiter.Try(cfg.interval, c.limiter, now);
    var c' := c.(limiter := l, clock := now);
    if !ready then (c', true)
    else
      var ned := Ned(0.0, 0.0, 0.0, YawTo(cfg, env.heading, Clamp(cmd.offsetX)));
      (c'.(log := c.log + [PositionTarget(now, c.machine.state, c.active.value, env.heading, ned)]), env.fcOk)
  }

  function CommandFor(cfg: Config, offset: (real, real)): AntiLoop.Command {
    AntiLoop.Command(offset.0 * cfg.guard.maxYaw, offset.1 * cfg.guard.maxPitch, offset.0, offset.1)
  }

  /** The per-frame entry point. */
  function Update(cfg: Config, c: Cmdr, offset: Option<(real, real)>, env: Env): (Cmdr, bool) {
    if c.active.None? || offset.None? || !CanSteer(c.machine.state) then (c, true)
    else
      var now := c.clock + env.toGuard;
      var later := now + env.toHandler;
      var input := AntiLoop.Input(CommandFor(cfg, offset.value), now, later);
      var (g, decision) := AntiLoop.Judge(cfg.guard, c.guard, input);
      var judged := c.(guard := g, clock := later);
      match decision
      case Allow(clipped) => SendCorrection(cfg, judged, clipped, env)
      case Suppress => (judged, true)
      case Degrade => (judged.(machine := Try(c.machine, TrackingDegraded).0), true)
      case Abort => AbortNow(judged, env.toSend, env.fcOk)
  }

  function Reset(c: Cmdr): (Cmdr, bool) {
    if c.machine.state != Abort then (c, false)
    else (c.(machine := Try(c.machine, Idle).0, active := None), true)
  }

  /** Expired watchdogs degrade tracking; aborting is left to the caller. */
  function Expire(c: Cmdr, expired: seq<Action>): Cmdr {
    if expired == [] then c
    else
      var before := Expire(c, expired[..|expired| - 1]);
      if expired[|expired| - 1].DegradeAction? && before.machine.state == Tracking
      then before.(machine := Try(before.machine, TrackingDegraded).0)
      else before
  }

  // ---- The commander object ----

  class FlightController {
    var log: seq<FcCommand>

    constructor ()
      ensures log == []
    {
      log := [];
    }

    method Send(command: FcCommand)
      modifies this
      ensures log == old(log) + [command]
    {
      log := log + [command];
    }
  }

  class Commander {
    const cfg: Config
    const machine: Machines.StateMachine
    const guard: AntiLoop.AntiLoopGuard
    const limiter: RateLimiter.CommandRateLimiter
    const fc: FlightController
    var active: Option<nat>
    var connected: bool
    var clock: int

    ghost predicate Valid()
      reads this, guard
    {
      && guard.Valid() && guard.cfg == cfg.guard && limiter.interval == cfg.interval
    }

    function At(): Cmdr
      reads this, machine, guard, limiter, fc
    {
      Cmdr(machine.At(), guard.At(), limiter.At(), active, connected, fc.log, clock)
    }

    constructor (cfg: Config)
      requires ValidConfig(cfg)
      ensures this.cfg == cfg && Valid() && At() == FRESH
      ensures fresh(machine) && fresh(guard) && fresh(limiter) && fresh(fc)
    {
      this.cfg := cfg;
      machine := new Machines.StateMachine(Idle);
      guard := new AntiLoop.AntiLoopGuard(cfg.guard);
      limiter := new RateLimiter.CommandRateLimiter(cfg.interval);
      fc := new FlightController();
      active, connected, clock := None, false, 0;
    }

    method ConnectFc(fcOk: bool) returns (ok: bool)
      requires Valid()
      modifies this, machine
      ensures Valid() && (At(), ok) == Connect(old(At()), fcOk)
    {
      if !fcOk {
        return false;
      }
      connected := true;
      ok := machine.TryTransition(Armed);
    }

    method DisarmFc(fcOk: bool) returns (ok: bool)
      requires Valid()
      modifies this, machine
      ensures Valid() && (At(), ok) == Disarm(old(At()), fcOk)
    {
      if !connected || !fcOk {
        return false;
      }
      var moved := machine.TryTransition(Idle);
      active := None;
      return true;
    }

    method BeginScanning() returns (ok: bool)
      requires Valid()
      modifies this, machine
      ensures Valid() && (At(), ok) == StartScanning(old(At()))
    {
      ok := machine.TryTransition(Scanning);
      if ok {
        active := None;
      }
    }

    method Select(id: nat) returns (ok: bool)
      requires Valid()
      modifies this, machine
      ensures Valid() && (At(), ok) == SelectTarget(old(At()), id)
    {
      var s := machine.state;
      if s == Scanning || s == Tracking || s == TrackingDegraded || s == Lost {
        ok := machine.TryTransition(TargetSelected);
        if !ok {
          return;
        }
        ok := machine.TryTransition(Tracking);
        if !ok {
          return;
        }
        active := Some(id);
      } else {
        return false;
      }
    }

    method AbortMission(wait: nat, fcOk: bool) returns (ok: bool)
      requires Valid()
      modifies this, machine, limiter, fc
      ensures Valid() && (At(), ok) == AbortNow(old(At()), wait, fcOk)
    {
      machine.ForceTransition(Abort);
      clock := clock + wait;
      limiter.ForceSend(clock);
      fc.Send(AbortRtl(clock));
      if !fcOk {
        return false;
      }
      active := None;
      return true;
    }

    method SendCorrectionToFc(cmd: AntiLoop.Command, env: Env) returns (ok: bool)
      requires Valid() && active.Some?
      modifies this, limiter, fc
      ensures Valid() && (At(), ok) == SendCorrection(cfg, old(At()), cmd, env)
    {
      clock := clock + env.toSend;
      var ready := limiter.TrySend(clock);
      if !ready {
        return true;
      }
      var x := Clamp(cmd.offsetX);
      var ned := Ned(0.0, 0.0, 0.0, YawTo(cfg, env.heading, x));
      fc.Send(PositionTarget(clock, machine.state, active.value, env.heading, ned));
      return env.fcOk;
    }

    method UpdateFrame(offset: Option<(real, real)>, env: Env) returns (ok: bool)
      requires Valid()
      modifies this, machine, guard, limiter, fc
      ensures Valid() && (At(), ok) == Update(cfg, old(At()), offset, env)
    {
      hide AntiLoop.Judge, CommandFor, Try, RateLimiter.Try, RateLimiter.Force, Force;
      if active.Some? && offset.Some? {
        if machine.state == Tracking || machine.state == TrackingDegraded {
          var now := clock + env.toGuard;
          clock := now + env.toHandler;
          var decision := guard.Process(CommandFor(cfg, offset.value), now, clock);
          match decision {
            case Allow(clipped) =>
              ok := SendCorrectionToFc(clipped, env);
              return;
            case Suppress =>
            case Degrade =>
              var moved := machine.TryTransition(TrackingDegraded);
            case Abort =>
              ok := AbortMission(env.toSend, env.fcOk);
              return;
          }
        }
      }
      return true;
    }

    method ResetToIdle() returns (ok: bool)
      requires Valid()
      modifies this, machine
      ensures Valid() && (At(), ok) == Reset(old(At()))
    {
      if machine.state != Abort {
        return false;
      }
      var moved := machine.TryTransition(Idle);
      active := None;
      return true;
    }

    method ProcessWatchdogExpiries(expired: seq<Action>)
      requires Valid()
      modifies machine
      ensures Valid() && At() == Expire(old(At()), expired)
    {
      for i := 0 to |expired|
        invariant Valid() && At() == Expire(old(At()), expired[..i])
      {
        assert expired[..i + 1][..i] == expired[..i];
        match expired[i] {
          case DegradeAction =>
            if machine.state == Tracking {
              var moved := machine.TryTransition(TrackingDegraded);
            }
          case AbortAction =>
        }
      }
      assert expired[..|expired|] == expired;
    }
  }

  // ---- What every call keeps ----

  /** When position targets were sent. */
  function SendTimes(log: seq<FcCommand>): seq<int> {
    if log == [] then []
    else
      var last := log[|log| - 1];
      if last.PositionTarget? then SendTimes(log[..|log| - 1]) + [last.at] else SendTimes(log[..|log| - 1])
  }

  /** The limiter knows of the last send, and the sends before it are spaced. */
  ghost predicate PaceKept(cfg: Config, c: Cmdr) {
    var t := SendTimes(c.log);
    && Spaced(cfg.interval, t)
    && (c.limiter.lastSent.Some? ==> c.limiter.lastSent.value <= c.clock)
    && (t != [] ==> c.limiter.lastSent.Some? && t[|t| - 1] <= c.limiter.lastSent.value)
  }

  predicate InFrame(x: real) {
    -1.0 <= x <= 1.0
  }

  /** The yaw commanded is off the vehicle's own by what an offset inside the frame, and
      inside the guard's limit, gives. */
  ghost predicate TurnsAllowed(cfg: Config, sent: FcCommand)
    requires sent.PositionTarget?
  {
    exists x :: InFrame(x) && (AntiLoop.Sensible(cfg.guard) ==> AntiLoop.Within(x, cfg.guard.maxOffset))
                && sent.ned == Ned(0.0, 0.0, 0.0, YawTo(cfg, sent.heading, x))
  }

  /** Position targets went out only while tracking, and ask for allowed turns only. */
  ghost predicate SendsAreSafe(cfg: Config, c: Cmdr) {
    forall i | 0 <= i < |c.log| && c.log[i].PositionTarget? ::
      CanSteer(c.log[i].state) && TurnsAllowed(cfg, c.log[i])
  }

  ghost predicate Inv(cfg: Config, c: Cmdr) {
    && Lawful(c.machine)
    && PaceKept(cfg, c)
    && SendsAreSafe(cfg, c)
    && c.limiter.sent == |c.log|
  }

  lemma FreshInv(cfg: Config)
    requires ValidConfig(cfg)
    ensures Inv(cfg, FRESH)
  {
  }

  lemma SameLogKeepsInv(cfg: Config, c: Cmdr, c': Cmdr)
    requires Inv(cfg, c) && Lawful(c'.machine)
    requires c'.log == c.log && c'.limiter.lastSent == c.limiter.lastSent && c'.limiter.sent == c.limiter.sent
    requires c.clock <= c'.clock
    ensures Inv(cfg, c')
  {
  }

  lemma AbortKeepsInv(cfg: Config, c: Cmdr, wait: nat, fcOk: bool)
    requires Inv(cfg, c)
    ensures Inv(cfg, AbortNow(c, wait, fcOk).0)
  {
    hide SendTimes, Spaced;
    StepsAreLawful(c.machine, Abort);
    SendTimesPush(c.log, AbortRtl(c.clock + wait));
  }

  lemma SendKeepsInv(cfg: Config, c: Cmdr, cmd: AntiLoop.Command, env: Env)
    requires ValidConfig(cfg) && Inv(cfg, c) && c.active.Some? && CanSteer(c.machine.state)
    requires AntiLoop.Sensible(cfg.guard) ==> AntiLoop.Within(cmd.offsetX, cfg.guard.maxOffset)
    ensures Inv(cfg, SendCorrection(cfg, c, cmd, env).0)
  {
    hide Lawful, PaceKept, SendsAreSafe;
    SendKeepsPace(cfg, c, cmd, env);
    SendStaysSafe(cfg, c, cmd, env);
  }

  lemma SendKeepsPace(cfg: Config, c: Cmdr, cmd: AntiLoop.Command, env: Env)
    requires ValidConfig(cfg) && PaceKept(cfg, c) && c.active.Some?
    ensures PaceKept(cfg, SendCorrection(cfg, c, cmd, env).0)
  {
    hide Spaced, Clamp, SendTimes;
    var now := c.clock + env.toSend;
    if RateLimiter.Ready(cfg.interval, c.limiter, now) {
      var sent := SendCorrection(cfg, c, cmd, env).0.log[|c.log|];
      SendTimesPush(c.log, sent);
      RateLimiter.SpacedPush(cfg.interval, SendTimes(c.log), now);
    }
  }

  lemma SendTimesPush(log: seq<FcCommand>, sent: FcCommand)
    ensures SendTimes(log + [sent]) == if sent.PositionTarget? then SendTimes(log) + [sent.at] else SendTimes(log)
  {
    assert (log + [sent])[..|log|] == log;
  }

  lemma SendStaysSafe(cfg: Config, c: Cmdr, cmd: AntiLoop.Command, env: Env)
    requires SendsAreSafe(cfg, c) && c.active.Some? && CanSteer(c.machine.state)
    requires AntiLoop.Sensible(cfg.guard) ==> AntiLoop.Within(cmd.offsetX, cfg.guard.maxOffset)
    ensures SendsAreSafe(cfg, SendCorrection(cfg, c, cmd, env).0)
  {
    hide RateLimiter.Try, YawTo;
    var c' := SendCorrection(cfg, c, cmd, env).0;
    if |c'.log| > |c.log| {
      var x := Clamp(cmd.offsetX);
      assert InFrame(x) && c'.log[|c.log|].ned.yaw == YawTo(cfg, env.heading, x);
    }
  }

  lemma UpdateKeepsInv(cfg: Config, c: Cmdr, offset: Option<(real, real)>, env: Env)
    requires ValidConfig(cfg) && Inv(cfg, c)
    ensures Inv(cfg, Update(cfg, c, offset, env).0)
  {
    hide Lawful, PaceKept, SendsAreSafe, AntiLoop.Judge, SendCorrection, AbortNow;
    if c.active.Some? && offset.Some? && CanSteer(c.machine.state) {
      var now := c.clock + env.toGuard;
      var later := now + env.toHandler;
      var input := AntiLoop.Input(CommandFor(cfg, offset.value), now, later);
      var (g, decision) := AntiLoop.Judge(cfg.guard, c.guard, input);
      var judged := c.(guard := g, clock := later);
      SameLogKeepsInv(cfg, c, judged);
      match decision {
        case Allow(clipped) =>
          if AntiLoop.Sensible(cfg.guard) {
            AntiLoop.AllowedIsClipped(cfg.guard, c.guard, input);
          }
          SendKeepsInv(cfg, judged, clipped, env);
        case Suppress =>
        case Degrade =>
          StepsAreLawful(c.machine, TrackingDegraded);
          SameLogKeepsInv(cfg, c, judged.(machine := Try(c.machine, TrackingDegraded).0));
        case Abort => AbortKeepsInv(cfg, judged, env.toSend, env.fcOk);
      }
    }
  }

  lemma {:induction false} ExpireKeepsInv(cfg: Config, c: Cmdr, expired: seq<Action>)
    requires Inv(cfg, c)
    ensures Inv(cfg, Expire(c, expired))
  {
    hide Lawful, PaceKept, SendsAreSafe;
    if expired != [] {
      var before := Expire(c, expired[..|expired| - 1]);
      ExpireKeepsInv(cfg, c, expired[..|expired| - 1]);
      StepsAreLawful(before.machine, TrackingDegraded);
      SameLogKeepsInv(cfg, before, Expire(c, expired));
    }
  }

  // ---- Whole runs of any calls ----

  datatype Call =
    | ConnectCall(fcOk: bool)
    | DisarmCall(fcOk: bool)
    | ScanCall
    | SelectCall(id: nat)
    | UpdateCall(offset: Option<(real, real)>, env: Env)
    | AbortCall(wait: nat, fcOk: bool)
    | ResetCall
    | ExpireCall(expired: seq<Action>)

  function Do(cfg: Config, c: Cmdr, call: Call): Cmdr {
    match call
    case ConnectCall(fcOk) => Connect(c, fcOk).0
    case DisarmCall(fcOk) => Disarm(c, fcOk).0
    case ScanCall => StartScanning(c).0
    case SelectCall(id) => SelectTarget(c, id).0
    case UpdateCall(offset, env) => Update(cfg, c, offset, env).0
    case AbortCall(wait, fcOk) => AbortNow(c, wait, fcOk).0
    case ResetCall => Reset(c).0
    case ExpireCall(expired) => Expire(c, expired)
  }

  function After(cfg: Config, calls: seq<Call>): Cmdr {
    if calls == [] then FRESH else Do(cfg, After(cfg, calls[..|calls| - 1]), calls[|calls| - 1])
  }

  lemma DoKeepsInv(cfg: Config, c: Cmdr, call: Call)
    requires ValidConfig(cfg) && Inv(cfg, c)
    ensures Inv(cfg, Do(cfg, c, call))
  {
    hide Lawful, PaceKept, SendsAreSafe;
    hide Update, AbortNow, Expire;
    var c' := Do(cfg, c, call);
    match call {
      case UpdateCall(offset, env) => UpdateKeepsInv(cfg, c, offset, env);
      case AbortCall(wait, fcOk) => AbortKeepsInv(cfg, c, wait, fcOk);
      case ExpireCall(expired) => ExpireKeepsInv(cfg, c, expired);
      case SelectCall(id) =>
        StepsAreLawful(c.machine, TargetSelected);
        StepsAreLawful(Try(c.machine, TargetSelected).0, Tracking);
        SameLogKeepsInv(cfg, c, c');
      case _ =>
        StepsAreLawful(c.machine, Armed);
        StepsAreLawful(c.machine, Idle);
        StepsAreLawful(c.machine, Scanning);
        SameLogKeepsInv(cfg, c, c');
    }
  }

  lemma {:induction false} RunKeepsInv(cfg: Config, calls: seq<Call>)
    requires ValidConfig(cfg)
    ensures Inv(cfg, After(cfg, calls))
  {
    hide Inv, Do;
    if calls == [] {
      FreshInv(cfg);
    } else {
      RunKeepsInv(cfg, calls[..|calls| - 1]);
      DoKeepsInv(cfg, After(cfg, calls[..|calls| - 1]), calls[|calls| - 1]);
    }
  }

  /** In no run of calls does any window of time hold more position targets than the rate
      allows, however aborts are mixed in. */
  lemma RateIsBounded(cfg: Config, calls: seq<Call>, from: int, to: int)
    requires ValidConfig(cfg) && from <= to
    ensures RateLimiter.CountIn(SendTimes(After(cfg, calls).log), from, to) <= (to - from) / cfg.interval + 1
  {
    RunKeepsInv(cfg, calls);
    RateLimiter.AtMostRate(cfg.interval, SendTimes(After(cfg, calls).log), from, to);
  }

  /** In every run position targets go out only while tracking, within the limits; and after
      an entry to Abort tracking needs the whole way through Idle, Armed, Scanning and
      TargetSelected. */
  lemma SteeringIsSafe(cfg: Config, calls: seq<Call>)
    requires ValidConfig(cfg)
    ensures SendsAreSafe(cfg, After(cfg, calls))
    ensures var trace := After(cfg, calls).machine.trace;
            forall i, j | 0 <= i < j < |trace| && trace[i] == Abort && CanSteer(trace[j]) :: WholeWay(trace, i, j)
  {
    RunKeepsInv(cfg, calls);
    var m := After(cfg, calls).machine;
    forall i: nat, j: nat | i < j < |m.trace| && m.trace[i] == Abort && CanSteer(m.trace[j])
      ensures WholeWay(m.trace, i, j)
    {
      TrackingAfterAbort(m, i, j);
    }
  }

  /** A new position target is for the target that is active, in the state that is current. */
  lemma SendIsForActiveTarget(cfg: Config, c: Cmdr, call: Call, i: nat)
    requires |c.log| <= i < |Do(cfg, c, call).log| && Do(cfg, c, call).log[i].PositionTarget?
    ensures call.UpdateCall? && call.offset.Some?
    ensures c.active == Some(Do(cfg, c, call).log[i].target) && Do(cfg, c, call).log[i].state == c.machine.state
    ensures CanSteer(c.machine.state)
  {
    hide AntiLoop.Judge;
    if call.ExpireCall? {
      ExpireKeepsLog(c, call.expired);
    }
  }

  lemma {:induction false} ExpireKeepsLog(c: Cmdr, expired: seq<Action>)
    ensures Expire(c, expired) == c.(machine := Expire(c, expired).machine)
    ensures !CanSteer(c.machine.state) ==> Expire(c, expired) == c
  {
    if expired != [] {
      ExpireKeepsLog(c, expired[..|expired| - 1]);
    }
  }

  /** Choosing a target succeeds from Scanning alone, although the code lists three more
      states: the transition table has no edge from those to TargetSelected. */
  lemma SelectOnlyFromScanning(c: Cmdr, id: nat)
    ensures SelectTarget(c, id).1 <==> c.machine.state == Scanning
    ensures !SelectTarget(c, id).1 ==> SelectTarget(c, id).0 == c
  {
  }

  /** What goes out follows what came in: the turn is the one for the horizontal offset,
      moved to the nearest value inside the frame and inside the guard's limit. */
  lemma SendFollowsOffset(cfg: Config, c: Cmdr, offset: (real, real), env: Env, i: nat) returns (x: real)
    requires AntiLoop.Sensible(cfg.guard)
    requires var log := Update(cfg, c, Some(offset), env).0.log; |c.log| <= i < |log| && log[i].PositionTarget?
    ensures var (sent, limit) := (Update(cfg, c, Some(offset), env).0.log[i], cfg.guard.maxOffset);
            && sent.heading == env.heading && sent.ned == Ned(0.0, 0.0, 0.0, YawTo(cfg, env.heading, x))
            && InFrame(x) && AntiLoop.Within(x, limit)
            && (forall z | InFrame(z) && AntiLoop.Within(z, limit) ::
                  AntiLoop.Abs(offset.0 - x) <= AntiLoop.Abs(offset.0 - z))
  {
    hide AntiLoop.Oscillates, AntiLoop.Within5s, RateLimiter.Try, YawTo;
    x := Clamp(AntiLoop.Clip(offset.0, cfg.guard.maxOffset));
  }

  /** The turn is half the angle of view for a target at the frame's edge, none for one in
      the centre, and in proportion between, to the target's side. */
  lemma TurnIsBounded(cfg: Config, heading: real, x: real)
    requires InFrame(x) && cfg.hfov >= 0.0
    ensures YawTo(cfg, heading, 1.0) == heading + cfg.hfov / 2.0
    ensures YawTo(cfg, heading, -1.0) == heading - cfg.hfov / 2.0
    ensures YawTo(cfg, heading, x) - heading == x * (YawTo(cfg, heading, 1.0) - heading)
    ensures AntiLoop.Abs(YawTo(cfg, heading, x) - heading) <= cfg.hfov / 2.0
    ensures x >= 0.0 ==> YawTo(cfg, heading, x) >= heading
    ensures x <= 0.0 ==> YawTo(cfg, heading, x) <= heading
  {
    var half := cfg.hfov / 2.0;
    Product(1.0 - x, half);
    Product(1.0 + x, half);
    Product(if x >= 0.0 then x else -x, half);
    assert (1.0 - x) * half == half - x * half && (1.0 + x) * half == half + x * half;
  }

  lemma Product(a: real, b: real)
    requires a >= 0.0 && b >= 0.0
    ensures a * b >= 0.0
  {
  }

  // ---- When a target is active ----

  /** The flight controller's reply to an abort that this call sends. */
  function ReplyTo(call: Call): bool {
    match call
    case AbortCall(_, fcOk) => fcOk
    case UpdateCall(_, env) => env.fcOk
    case _ => true
  }

  /** The call sends the message that goes with an abort. */
  predicate SendsAbort(cfg: Config, c: Cmdr, call: Call) {
    var log := Do(cfg, c, call).log;
    |log| > |c.log| && log[|log| - 1].AbortRtl?
  }

  /** The reply to the run's last abort, if there was one. */
  function LastReply(cfg: Config, calls: seq<Call>): Option<bool> {
    if calls == [] then None
    else
      var (front, call) := (calls[..|calls| - 1], calls[|calls| - 1]);
      if SendsAbort(cfg, After(cfg, front), call) then Some(ReplyTo(call)) else LastReply(cfg, front)
  }

  /** A target is active while tracking, or in Abort when the reply to the last abort was a
      failure. */
  ghost predicate TargetInPlace(c: Cmdr, reply: Option<bool>) {
    c.active.Some? ==> CanSteer(c.machine.state) || (c.machine.state == Abort && reply == Some(false))
  }

  lemma DoKeepsTargetInPlace(cfg: Config, c: Cmdr, call: Call, reply: Option<bool>)
    requires TargetInPlace(c, reply)
    ensures TargetInPlace(Do(cfg, c, call), if SendsAbort(cfg, c, call) then Some(ReplyTo(call)) else reply)
  {
    hide AntiLoop.Judge, RateLimiter.Try, YawTo;
    if call.ExpireCall? {
      ExpireKeepsTarget(c, call.expired);
      ExpireKeepsLog(c, call.expired);
    }
  }

  /** In every run a target is active only while tracking, or in Abort after a
      return-to-launch that failed. */
  lemma {:induction false} TargetOnlyWhileTracking(cfg: Config, calls: seq<Call>)
    ensures var c := After(cfg, calls);
            c.active.Some? ==>
              CanSteer(c.machine.state) || (c.machine.state == Abort && LastReply(cfg, calls) == Some(false))
  {
    hide Do, SendsAbort, ReplyTo;
    if calls != [] {
      var (front, call) := (calls[..|calls| - 1], calls[|calls| - 1]);
      TargetOnlyWhileTracking(cfg, front);
      DoKeepsTargetInPlace(cfg, After(cfg, front), call, LastReply(cfg, front));
    }
  }

  lemma {:induction false} ExpireKeepsTarget(c: Cmdr, expired: seq<Action>)
    ensures Expire(c, expired).active == c.active
    ensures CanSteer(c.machine.state) ==> CanSteer(Expire(c, expired).machine.state)
    ensures !CanSteer(c.machine.state) ==> Expire(c, expired) == c
  {
    if expired != [] {
      ExpireKeepsTarget(c, expired[..|expired| - 1]);
    }
  }

  /** Disarming reaches Idle exactly from the states that have an edge to it, although it
      reports success from all of them. */
  lemma DisarmReachesIdle(c: Cmdr)
    requires c.connected
    ensures Disarm(c, true).1
    ensures Disarm(c, true).0.machine.state == Idle <==>
            c.machine.state == Idle || c.machine.state == Scanning || c.machine.state == Rth || c.machine.state == Abort
  {
  }

  /** Tracking goes with a target. */
  predicate HasTarget(c: Cmdr) {
    CanSteer(c.machine.state) ==> c.active.Some?
  }

  /** A disarm that comes while tracking: it takes the target but not the state. */
  predicate Blinds(c: Cmdr, call: Call) {
    call.DisarmCall? && call.fcOk && c.connected && CanSteer(c.machine.state)
  }

  /** The commander is never found in Lost or, between calls, in TargetSelected. */
  lemma {:induction false} NeverLost(cfg: Config, calls: seq<Call>)
    ensures After(cfg, calls).machine.state != Lost && After(cfg, calls).machine.state != TargetSelected
  {
    hide AntiLoop.Judge, RateLimiter.Try, YawTo;
    if calls != [] {
      var (front, call) := (calls[..|calls| - 1], calls[|calls| - 1]);
      NeverLost(cfg, front);
      if call.ExpireCall? {
        ExpireKeepsTarget(After(cfg, front), call.expired);
      }
    }
  }

  /** Of all calls exactly the blind disarm takes the target from a commander that tracks
      one. */
  lemma TargetLostExactly(cfg: Config, c: Cmdr, call: Call)
    requires HasTarget(c) && c.machine.state != Lost && c.machine.state != TargetSelected
    ensures HasTarget(Do(cfg, c, call)) <==> !Blinds(c, call)
  {
    hide AntiLoop.Judge, RateLimiter.Try, YawTo;
    if call.ExpireCall? {
      ExpireKeepsTarget(c, call.expired);
    }
  }

  /** Once tracking without a target, a call ends that only by leaving the tracking states. */
  lemma BlindStays(cfg: Config, c: Cmdr, call: Call)
    requires !HasTarget(c)
    ensures HasTarget(Do(cfg, c, call)) <==> !CanSteer(Do(cfg, c, call).machine.state)
  {
    hide AntiLoop.Judge, RateLimiter.Try, YawTo;
    SelectOnlyFromScanning(c, if call.SelectCall? then call.id else 0);
    if call.ExpireCall? {
      ExpireKeepsTarget(c, call.expired);
    }
  }

  /** The run's i-th call was a blind disarm, and it has tracked ever since. */
  ghost predicate BlindSince(cfg: Config, calls: seq<Call>, i: nat) {
    && i < |calls|
    && Blinds(After(cfg, calls[..i]), calls[i])
    && forall j | i < j <= |calls| :: CanSteer(After(cfg, calls[..j]).machine.state)
  }

  /** A run ends tracking without a target exactly when a disarm came while it was tracking
      and it has been tracking ever since. */
  lemma {:induction false} TracksBlindExactly(cfg: Config, calls: seq<Call>)
    ensures !HasTarget(After(cfg, calls)) <==> exists i: nat :: BlindSince(cfg, calls, i)
  {
    hide Do, HasTarget, Blinds;
    if calls == [] {
      assert HasTarget(FRESH) by { FreshHasTarget(); }
    } else {
      var n := |calls| - 1;
      var (front, call) := (calls[..n], calls[n]);
      var (c, c') := (After(cfg, front), After(cfg, calls));
      TracksBlindExactly(cfg, front);
      NeverLost(cfg, front);
      BlindMeansTracking(c');
      assert calls[..|calls|] == calls;
      forall i | 0 <= i <= n ensures front[..i] == calls[..i] {}
      if HasTarget(c) {
        TargetLostExactly(cfg, c, call);
        if Blinds(c, call) {
          assert BlindSince(cfg, calls, n);
        }
        forall i: nat | BlindSince(cfg, calls, i) ensures i == n {
          assert i < n ==> BlindSince(cfg, front, i);
        }
      } else {
        BlindStays(cfg, c, call);
        var i: nat :| BlindSince(cfg, front, i);
        if CanSteer(c'.machine.state) {
          assert BlindSince(cfg, calls, i);
        }
      }
    }
  }

  lemma FreshHasTarget()
    ensures HasTarget(FRESH)
  {
  }

  lemma BlindMeansTracking(c: Cmdr)
    ensures !HasTarget(c) ==> CanSteer(c.machine.state)
  {
  }

  /** Without such a disarm the run never tracks without a target. */
  lemma TracksItsTarget(cfg: Config, calls: seq<Call>)
    requires forall i | 0 <= i < |calls| :: !Blinds(After(cfg, calls[..i]), calls[i])
    ensures HasTarget(After(cfg, calls))
  {
    hide HasTarget, Blinds;
    TracksBlindExactly(cfg, calls);
  }

  /** A run that does: connected, scanning, a target chosen, disarmed. */
  lemma DisarmLeavesTracking(cfg: Config)
    ensures var c := After(cfg, [ConnectCall(true), ScanCall, SelectCall(7), DisarmCall(true)]);
            c.machine.state == Tracking && c.active == None
  {
    hide Update, AbortNow, Expire, Reset;
    var calls := [ConnectCall(true), ScanCall, SelectCall(7), DisarmCall(true)];
    assert calls[..3] == [ConnectCall(true), ScanCall, SelectCall(7)];
    assert calls[..3][..2] == [ConnectCall(true), ScanCall];
    assert calls[..3][..2][..1] == [ConnectCall(true)];
    assert After(cfg, calls[..3][..2][..1][..0]) == FRESH;
    var c1 := After(cfg, calls[..3][..2][..1]);
    assert c1.machine.state == Armed && c1.connected;
    var c2 := After(cfg, calls[..3][..2]);
    assert c2.machine.state == Scanning && c2.connected;
    var c3 := After(cfg, calls[..3]);
    assert c3.machine.state == Tracking && c3.connected;
  }
}
