/** What the commander does, over whole runs: when it steers, degrades and aborts, told from
    the run so far. */
module CommanderRuns {
  import opened Common
  import opened StateMachine
  import opened Commander
  import AntiLoop
  import AntiLoopRuns
  import RateLimiter

  // ---- The guard inside the commander ----

  /** A frame update puts its question to the guard: there is a target, an offset, and a
      tracking state. */
  predicate Asks(c: Cmdr, call: Call) {
    call.UpdateCall? && call.offset.Some? && c.active.Some? && CanSteer(c.machine.state)
  }

  function Question(cfg: Config, c: Cmdr, offset: (real, real), env: Env): AntiLoop.Input {
    AntiLoop.Input(CommandFor(cfg, offset), c.clock + env.toGuard, c.clock + env.toGuard + env.toHandler)
  }

  /** All that the guard has been asked over the run. */
  function Questions(cfg: Config, calls: seq<Call>): seq<AntiLoop.Input> {
    if calls == [] then []
    else
      var (front, call) := (calls[..|calls| - 1], calls[|calls| - 1]);
      if Asks(After(cfg, front), call)
      then Questions(cfg, front) + [Question(cfg, After(cfg, front), call.offset.value, call.env)]
      else Questions(cfg, front)
  }

  lemma UpdateAsks(cfg: Config, c: Cmdr, call: Call)
    ensures c.clock <= Do(cfg, c, call).clock
    ensures Asks(c, call) ==>
              && Do(cfg, c, call).guard ==
                 AntiLoop.Judge(cfg.guard, c.guard, Question(cfg, c, call.offset.value, call.env)).0
              && Question(cfg, c, call.offset.value, call.env).later <= Do(cfg, c, call).clock
    ensures !Asks(c, call) ==> Do(cfg, c, call).guard == c.guard
  {
    hide AntiLoop.Judge, RateLimiter.Try, YawTo;
    if call.ExpireCall? {
      ExpireKeepsLog(c, call.expired);
    }
  }

  /** The guard's state is that of its own run on those questions, on a monotone clock. */
  lemma {:induction false} GuardSeesQuestions(cfg: Config, calls: seq<Call>)
    ensures After(cfg, calls).guard == AntiLoop.After(cfg.guard, Questions(cfg, calls))
    ensures AntiLoop.Monotone(Questions(cfg, calls))
    ensures forall i | 0 <= i < |Questions(cfg, calls)| :: Questions(cfg, calls)[i].later <= After(cfg, calls).clock
  {
    hide Do, AntiLoop.Judge, CommandFor;
    if calls != [] {
      var (front, call) := (calls[..|calls| - 1], calls[|calls| - 1]);
      GuardSeesQuestions(cfg, front);
      var c := After(cfg, front);
      UpdateAsks(cfg, c, call);
      if Asks(c, call) {
        var asked := Question(cfg, c, call.offset.value, call.env);
        assert (Questions(cfg, front) + [asked])[..|Questions(cfg, front)|] == Questions(cfg, front);
      }
    }
  }

  /** The next question continues that run. */
  lemma NextQuestion(cfg: Config, calls: seq<Call>, offset: (real, real), env: Env)
    ensures var (c, q) := (After(cfg, calls), Questions(cfg, calls));
            var next := Question(cfg, c, offset, env);
            && AntiLoop.Monotone(q + [next])
            && AntiLoop.Decided(cfg.guard, q + [next]) == AntiLoop.Judge(cfg.guard, c.guard, next).1
  {
    hide AntiLoop.Judge;
    GuardSeesQuestions(cfg, calls);
    var q := Questions(cfg, calls);
    var next := Question(cfg, After(cfg, calls), offset, env);
    assert (q + [next])[..|q|] == q;
  }

  // ---- The limiter inside the commander ----

  /** When the last command of either kind went out. */
  function LastSend(log: seq<FcCommand>): Option<int> {
    if log == [] then None else Some(log[|log| - 1].at)
  }

  lemma DoKeepsLimiter(cfg: Config, c: Cmdr, call: Call)
    requires c.limiter.lastSent == LastSend(c.log)
    ensures Do(cfg, c, call).limiter.lastSent == LastSend(Do(cfg, c, call).log)
  {
    hide AntiLoop.Judge, YawTo;
    if call.ExpireCall? {
      ExpireKeepsLog(c, call.expired);
    }
  }

  lemma {:induction false} LimiterKnowsLog(cfg: Config, calls: seq<Call>)
    ensures After(cfg, calls).limiter.lastSent == LastSend(After(cfg, calls).log)
  {
    hide Do;
    if calls != [] {
      LimiterKnowsLog(cfg, calls[..|calls| - 1]);
      DoKeepsLimiter(cfg, After(cfg, calls[..|calls| - 1]), calls[|calls| - 1]);
    }
  }

  // ---- What an update does ----

  /** Nothing may get through now: dead band, or within a second of a trigger. */
  ghost predicate Quiet(cfg: Config, calls: seq<Call>, next: AntiLoop.Input) {
    AntiLoopRuns.InBand(cfg.guard, next.command) || AntiLoopRuns.InFreeze(cfg.guard, Questions(cfg, calls), next)
  }

  /** The turns have become too many. */
  ghost predicate Swings(cfg: Config, calls: seq<Call>, next: AntiLoop.Input) {
    AntiLoopRuns.TooManyTurns(cfg.guard, Questions(cfg, calls), next)
  }

  /** With this one there are abort_count triggers within five seconds. */
  ghost predicate Escalates(cfg: Config, calls: seq<Call>, next: AntiLoop.Input) {
    var t := AntiLoop.TriggerTimes(cfg.guard, Questions(cfg, calls)) + [next.later];
    |AntiLoopRuns.Recent(t, next.later)| >= cfg.guard.abortCount
  }

  /** The guard's decision inside the commander, told from the run. */
  lemma GuardDecides(cfg: Config, calls: seq<Call>, offset: (real, real), env: Env)
    ensures var c := After(cfg, calls);
            var next := Question(cfg, c, offset, env);
            var d := AntiLoop.Judge(cfg.guard, c.guard, next).1;
            && (d == AntiLoop.Suppress <==> Quiet(cfg, calls, next))
            && (d == AntiLoop.Abort <==>
                !Quiet(cfg, calls, next) && Swings(cfg, calls, next) && Escalates(cfg, calls, next))
            && (d == AntiLoop.Degrade <==>
                !Quiet(cfg, calls, next) && Swings(cfg, calls, next) && !Escalates(cfg, calls, next))
            && (d.Allow? <==> !Quiet(cfg, calls, next) && !Swings(cfg, calls, next))
            && (d.Allow? ==> d.command == AntiLoop.Clipped(cfg.guard, next.command))
  {
    hide AntiLoop.Judge, AntiLoop.Decided, AntiLoop.TriggerTimes, AntiLoopRuns.InBand, AntiLoopRuns.InFreeze,
         AntiLoopRuns.TooManyTurns, AntiLoopRuns.Recent, AntiLoop.Clipped, CommandFor;
    var q := Questions(cfg, calls);
    var next := Question(cfg, After(cfg, calls), offset, env);
    NextQuestion(cfg, calls, offset, env);
    AntiLoopRuns.DecisionExactly(cfg.guard, q, next);
    if AntiLoop.IsTrigger(AntiLoop.Decided(cfg.guard, q + [next])) {
      AntiLoopRuns.EscalationExactly(cfg.guard, q, next);
    }
  }

  /** An escalation acts. Over every run: when a frame is taken up while tracking a target and
      its turn is the one too many that makes abort_count triggers within five seconds, the
      commander is in Abort, return-to-launch has gone out and nothing else, and the target is
      forgotten if and only if the flight controller agreed. */
  lemma EscalationActs(cfg: Config, calls: seq<Call>, offset: (real, real), env: Env)
    requires Asks(After(cfg, calls), UpdateCall(Some(offset), env))
    requires var next := Question(cfg, After(cfg, calls), offset, env);
             !Quiet(cfg, calls, next) && Swings(cfg, calls, next) && Escalates(cfg, calls, next)
    ensures var (c, (c', ok)) := (After(cfg, calls), Update(cfg, After(cfg, calls), Some(offset), env));
            && c'.machine.state == SystemState.Abort
            && c'.log == c.log + [AbortRtl(Question(cfg, c, offset, env).later + env.toSend)]
            && c'.active == (if env.fcOk then None else c.active)
            && ok == env.fcOk
  {
    hide AntiLoop.Judge, Quiet, Swings, Escalates, CommandFor;
    GuardDecides(cfg, calls, offset, env);
  }

  /** A trigger that does not escalate degrades: the target is kept, and nothing is sent. */
  lemma TriggerDegrades(cfg: Config, calls: seq<Call>, offset: (real, real), env: Env)
    requires Asks(After(cfg, calls), UpdateCall(Some(offset), env))
    requires var next := Question(cfg, After(cfg, calls), offset, env);
             !Quiet(cfg, calls, next) && Swings(cfg, calls, next) && !Escalates(cfg, calls, next)
    ensures var (c, (c', ok)) := (After(cfg, calls), Update(cfg, After(cfg, calls), Some(offset), env));
            && c'.machine.state == TrackingDegraded
            && c'.log == c.log && c'.active == c.active && ok
  {
    hide AntiLoop.Judge, Quiet, Swings, Escalates, CommandFor;
    GuardDecides(cfg, calls, offset, env);
  }

  /** The time at which a correction would go out. */
  function SendTime(cfg: Config, c: Cmdr, offset: (real, real), env: Env): int {
    Question(cfg, c, offset, env).later + env.toSend
  }

  /** Nothing, of either kind, has gone out within the interval. */
  predicate Due(cfg: Config, c: Cmdr, at: int) {
    LastSend(c.log).Some? ==> at - LastSend(c.log).value >= cfg.interval
  }

  /** An offset that is let through steers: exactly when no command has gone out within the
      interval, one position target goes out, for the active target; the call reports the
      flight controller's answer, and nothing else changes hands. */
  lemma AllowedSteers(cfg: Config, calls: seq<Call>, offset: (real, real), env: Env)
    requires ValidConfig(cfg) && Asks(After(cfg, calls), UpdateCall(Some(offset), env))
    requires var next := Question(cfg, After(cfg, calls), offset, env);
             !Quiet(cfg, calls, next) && !Swings(cfg, calls, next)
    ensures var (c, (c', ok)) := (After(cfg, calls), Update(cfg, After(cfg, calls), Some(offset), env));
            var at := SendTime(cfg, c, offset, env);
            && c'.machine == c.machine && c'.active == c.active
            && (if Due(cfg, c, at)
                then |c'.log| == |c.log| + 1 && c'.log[..|c.log|] == c.log && ok == env.fcOk
                     && c'.log[|c.log|].PositionTarget? && c'.log[|c.log|].at == at
                     && c'.log[|c.log|].target == c.active.value && c'.log[|c.log|].state == c.machine.state
                else c'.log == c.log && ok)
  {
    hide AntiLoop.Judge, Quiet, Swings, Escalates, CommandFor, YawTo;
    GuardDecides(cfg, calls, offset, env);
    LimiterKnowsLog(cfg, calls);
  }

  /** In the dead band, or within a second of a trigger, nothing happens; nor without a target,
      an offset, or a tracking state. */
  lemma OtherwiseNothing(cfg: Config, calls: seq<Call>, offset: Option<(real, real)>, env: Env)
    ensures var (c, (c', ok)) := (After(cfg, calls), Update(cfg, After(cfg, calls), offset, env));
            && (!Asks(c, UpdateCall(offset, env)) ==> c' == c && ok)
            && (Asks(c, UpdateCall(offset, env)) && Quiet(cfg, calls, Question(cfg, c, offset.value, env)) ==>
                  c'.machine == c.machine && c'.active == c.active && c'.log == c.log && ok)
  {
    hide AntiLoop.Judge, Quiet, Swings, Escalates, CommandFor, YawTo;
    if offset.Some? {
      GuardDecides(cfg, calls, offset.value, env);
    }
  }

  // ---- What the other calls do ----

  /** Each call's success and where it leads. */
  lemma CallsExactly(c: Cmdr, id: nat, wait: nat)
    ensures var (c', ok) := Connect(c, true);
            && c'.connected && (ok <==> c.machine.state == Idle || c.machine.state == Armed)
            && c'.machine.state == (if ok then Armed else c.machine.state)
            && c'.active == c.active && c'.log == c.log
    ensures Connect(c, false) == (c, false)
    ensures var (c', ok) := StartScanning(c);
            && (ok <==> c.machine.state == Scanning || IsAllowed(c.machine.state, Scanning))
            && (ok ==> c'.machine.state == Scanning && c'.active == None && c'.log == c.log)
            && (!ok ==> c' == c)
    ensures var (c', ok) := SelectTarget(c, id);
            && (ok <==> c.machine.state == Scanning)
            && (ok ==> c'.machine.state == Tracking && c'.active == Some(id) && c'.log == c.log)
            && (!ok ==> c' == c)
    ensures var (c', ok) := Reset(c);
            && (ok <==> c.machine.state == SystemState.Abort)
            && (ok ==> c'.machine.state == Idle && c'.active == None && c'.log == c.log)
            && (!ok ==> c' == c)
    ensures var (c', ok) := Disarm(c, true);
            && (ok <==> c.connected)
            && (ok ==> c'.active == None && c'.log == c.log)
            && (!ok ==> c' == c)
    ensures Disarm(c, false) == (c, false)
    ensures forall fcOk ::
              var (c', ok) := AbortNow(c, wait, fcOk);
              && c'.machine.state == SystemState.Abort && c'.log == c.log + [AbortRtl(c.clock + wait)] && ok == fcOk
              && c'.active == (if fcOk then None else c.active)
              && c'.limiter.lastSent == Some(c.clock + wait)
  {
  }

  /** Expired watchdogs: the one effect is that Tracking degrades when one of them asks for
      it. */
  lemma {:induction false} ExpireExactly(c: Cmdr, expired: seq<Action>)
    ensures var c' := Expire(c, expired);
            && c'.machine.state ==
               (if c.machine.state == Tracking && DegradeAction in expired then TrackingDegraded else c.machine.state)
            && c' == c.(machine := c'.machine)
            && (c'.machine.state == c.machine.state ==> c' == c)
  {
    if expired != [] {
      var (front, last) := (expired[..|expired| - 1], expired[|expired| - 1]);
      ExpireExactly(c, front);
      assert DegradeAction in expired <==> DegradeAction in front || last == DegradeAction by {
        assert expired == front + [last];
      }
    }
  }

  /** The question put to the guard: full rates for a target at the frame's edge, none for one
      in the centre, in proportion between; so the sign the guard remembers is the side the
      target is on, and the turn is strong when the target is far enough out. */
  lemma QuestionFollowsOffset(cfg: Config, c: Cmdr, offset: (real, real), env: Env)
    requires cfg.guard.maxYaw > 0.0 && cfg.guard.maxPitch > 0.0
    ensures var asked := Question(cfg, c, offset, env).command;
            && asked.offsetX == offset.0 && asked.offsetY == offset.1
            && asked.yawRate / cfg.guard.maxYaw == offset.0 && asked.pitchRate / cfg.guard.maxPitch == offset.1
            && (AntiLoop.Clipped(cfg.guard, asked).yawRate > 0.0 <==> offset.0 > 0.0)
    ensures c.clock <= Question(cfg, c, offset, env).now <= Question(cfg, c, offset, env).later
  {
    var (yaw, max) := (offset.0 * cfg.guard.maxYaw, cfg.guard.maxYaw);
    assert yaw / max == offset.0 && offset.1 * cfg.guard.maxPitch / cfg.guard.maxPitch == offset.1;
    assert yaw > 0.0 <==> offset.0 > 0.0;
  }
}
