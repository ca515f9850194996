/** The anti-loop guard: dead band, clipping, and the oscillation detector that
    freezes commands for a second and escalates to abort. Times are nanoseconds. */
module AntiLoop {
  import opened Common

  const SECOND: int := 1_000_000_000
  const MIN_YAW: real := 0.1

  datatype Command = Command(yawRate: real, pitchRate: real, offsetX: real, offsetY: real)

  datatype Decision = Allow(command: Command) | Suppress | Degrade | Abort

  datatype Config = Config(
    deadband: real,
    maxYaw: real,
    maxPitch: real,
    maxOffset: real,
    window: nat,
    threshold: real,
    abortCount: nat)

  datatype State = State(
    history: seq<bool>,
    freezeUntil: Option<int>,
    recentTriggers: seq<int>,
    suppressed: nat,
    allowed: nat,
    triggers: nat)

  /** A call: the command, and the clock at its start and inside the oscillation handler. */
  datatype Input = Input(command: Command, now: int, later: int)

  function Abs(x: real): real {
    if x < 0.0 then -x else x
  }

  function Clip(x: real, limit: real): real {
    if Abs(x) > limit then (if x < 0.0 then -limit else limit) else x
  }

  function Clipped(cfg: Config, c: Command): Command {
    Command(Clip(c.yawRate, cfg.maxYaw), Clip(c.pitchRate, cfg.maxPitch),
            Clip(c.offsetX, cfg.maxOffset), Clip(c.offsetY, cfg.maxOffset))
  }

  predicate InDeadband(cfg: Config, c: Command) {
    Abs(c.offsetX) < cfg.deadband && Abs(c.offsetY) < cfg.deadband
  }

  /** The number of neighbours that differ. */
  function Changes(s: seq<bool>): nat {
    if |s| < 2 then 0
    else Changes(s[..|s| - 1]) + if s[|s| - 2] != s[|s| - 1] then 1 else 0
  }

  function Rate(changes: nat, window: nat): real
    requires window > 0
  {
    changes as real / window as real
  }

  /** The sign turns, strongly enough, and turns make up too much of the window. */
  predicate Oscillates(cfg: Config, history: seq<bool>, yaw: real) {
    && history != []
    && history[|history| - 1] != (yaw > 0.0)
    && Abs(yaw) > MIN_YAW
    && Rate(Changes(history + [yaw > 0.0]), |history|) > cfg.threshold
  }

  function Pushed(cfg: Config, history: seq<bool>, sign: bool): seq<bool> {
    var longer := history + [sign];
    if |longer| > cfg.window then longer[1..] else longer
  }

  /** The entries of t that lie less than five seconds before `now`. */
  function Within5s(t: seq<int>, now: int): seq<int> {
    if t == [] then []
    else if now - t[|t| - 1] < 5 * SECOND then Within5s(t[..|t| - 1], now) + [t[|t| - 1]]
    else Within5s(t[..|t| - 1], now)
  }

  function Frozen(s: State, now: int): bool {
    s.freezeUntil.Some? && now < s.freezeUntil.value
  }

  /** What one call does and decides. */
  function Judge(cfg: Config, s: State, in': Input): (State, Decision) {
    if Frozen(s, in'.now) then (s.(suppressed := s.suppressed + 1), Suppress)
    else
      var thawed := s.(freezeUntil := None);
      if InDeadband(cfg, in'.command) then (thawed.(suppressed := s.suppressed + 1), Suppress)
      else
        var c := Clipped(cfg, in'.command);
        if Oscillates(cfg, s.history, c.yawRate) then
          var recent := Within5s(s.recentTriggers, in'.later) + [in'.later];
          (State([], Some(in'.later + SECOND), recent, s.suppressed, s.allowed, s.triggers + 1),
           if |recent| >= cfg.abortCount then Abort else Degrade)
        else
          (thawed.(history := Pushed(cfg, s.history, c.yawRate > 0.0), allowed := s.allowed + 1), Allow(c))
  }

  const INITIAL: State := State([], None, [], 0, 0, 0)

  class AntiLoopGuard {
    const cfg: Config
    var history: seq<bool>
    var frozen: bool
    var freezeUntil: Option<int>
    var recentTriggers: seq<int>
    var suppressed: nat
    var allowed: nat
    var triggers: nat

    constructor (cfg: Config)
      ensures this.cfg == cfg && At() == INITIAL && Valid()
    {
      this.cfg := cfg;
      history, frozen, freezeUntil, recentTriggers := [], false, None, [];
      suppressed, allowed, triggers := 0, 0, 0;
    }

    /** The flag and the deadline agree. */
    predicate Valid()
      reads this
    {
      frozen <==> freezeUntil.Some?
    }

    function At(): State
      reads this
    {
      State(history, freezeUntil, recentTriggers, suppressed, allowed, triggers)
    }

    method CountSignChanges(next: bool) returns (changes: nat)
      ensures changes == if history == [] then 0 else Changes(history + [next])
    {
      if history == [] {
        return 0;
      }
      changes := 0;
      var prev := history[0];
      for i := 1 to |history|
        invariant prev == history[i - 1] && changes == Changes(history[..i])
      {
        assert history[..i + 1][..i] == history[..i];
        if history[i] != prev {
          changes := changes + 1;
        }
        prev := history[i];
      }
      assert history[..|history|] == history;
      assert (history + [next])[..|history|] == history;
      if next != prev {
        changes := changes + 1;
      }
    }

    method Process(command: Command, now: int, later: int) returns (decision: Decision)
      requires Valid()
      modifies this
      ensures Valid()
      ensures (At(), decision) == Judge(cfg, old(At()), Input(command, now, later))
    {
      hide Rate, Clipped, Changes, Within5s;
      if freezeUntil.Some? {
        if now < freezeUntil.value {
          suppressed := suppressed + 1;
          return Suppress;
        }
        frozen := false;
        freezeUntil := None;
      }
      if Abs(command.offsetX) < cfg.deadband && Abs(command.offsetY) < cfg.deadband {
        suppressed := suppressed + 1;
        return Suppress;
      }
      var clipped := Clipped(cfg, command);
      var yawSign := clipped.yawRate > 0.0;
      if history != [] {
        var prev := history[|history| - 1];
        if prev != yawSign && Abs(clipped.yawRate) > MIN_YAW {
          var signChanges := CountSignChanges(yawSign);
          var changeRate := Rate(signChanges, |history|);
          if changeRate > cfg.threshold {
            decision := HandleOscillation(later);
            return;
          }
        }
      }
      history := history + [yawSign];
      if |history| > cfg.window {
        history := history[1..];
      }
      allowed := allowed + 1;
      return Allow(clipped);
    }

    method HandleOscillation(later: int) returns (decision: Decision)
      modifies this
      ensures Valid()
      ensures var recent := Within5s(old(recentTriggers), later) + [later];
              && At() == State([], Some(later + SECOND), recent, old(suppressed), old(allowed), old(triggers) + 1)
              && decision == if |recent| >= cfg.abortCount then Abort else Degrade
    {
      triggers := triggers + 1;
      recentTriggers := Within5s(recentTriggers, later) + [later];
      frozen := true;
      freezeUntil := Some(later + SECOND);
      history := [];
      if |recentTriggers| >= cfg.abortCount {
        return Abort;
      }
      return Degrade;
    }
  }

  // ---- Single calls ----

  /** Limits that make sense. */
  predicate Sensible(cfg: Config) {
    cfg.maxYaw >= 0.0 && cfg.maxPitch >= 0.0 && cfg.maxOffset >= 0.0 && cfg.threshold >= 0.0
  }

  predicate Within(x: real, limit: real) {
    -limit <= x <= limit
  }

  /** A command that is let through is the input brought to the nearest values within all limits. */
  lemma AllowedIsClipped(cfg: Config, s: State, in': Input)
    requires Sensible(cfg) && Judge(cfg, s, in').1.Allow?
    ensures var (c, d) := (in'.command, Judge(cfg, s, in').1.command);
            && Within(d.yawRate, cfg.maxYaw) && Within(d.pitchRate, cfg.maxPitch)
            && Within(d.offsetX, cfg.maxOffset) && Within(d.offsetY, cfg.maxOffset)
            && (forall x | Within(x, cfg.maxYaw) :: Abs(c.yawRate - d.yawRate) <= Abs(c.yawRate - x))
            && (forall x | Within(x, cfg.maxPitch) :: Abs(c.pitchRate - d.pitchRate) <= Abs(c.pitchRate - x))
            && (forall x | Within(x, cfg.maxOffset) :: Abs(c.offsetX - d.offsetX) <= Abs(c.offsetX - x))
            && (forall x | Within(x, cfg.maxOffset) :: Abs(c.offsetY - d.offsetY) <= Abs(c.offsetY - x))
  {
  }

  // ---- Whole runs ----

  /** The clock never goes back. */
  ghost predicate Monotone(inputs: seq<Input>) {
    && (forall i | 0 <= i < |inputs| :: inputs[i].now <= inputs[i].later)
    && (forall i, j | 0 <= i < j < |inputs| :: inputs[i].later <= inputs[j].now)
  }

  function After(cfg: Config, inputs: seq<Input>): State {
    if inputs == [] then INITIAL
    else Judge(cfg, After(cfg, inputs[..|inputs| - 1]), inputs[|inputs| - 1]).0
  }

  /** The decision of the last call. */
  function Decided(cfg: Config, inputs: seq<Input>): Decision
    requires inputs != []
  {
    Judge(cfg, After(cfg, inputs[..|inputs| - 1]), inputs[|inputs| - 1]).1
  }

  predicate IsTrigger(d: Decision) {
    d.Degrade? || d.Abort?
  }

  /** The times of all oscillation triggers of the run. */
  function TriggerTimes(cfg: Config, inputs: seq<Input>): seq<int> {
    if inputs == [] then []
    else
      var before := TriggerTimes(cfg, inputs[..|inputs| - 1]);
      if IsTrigger(Decided(cfg, inputs)) then before + [inputs[|inputs| - 1].later] else before
  }

  function Last(t: seq<int>): int
    requires t != []
  {
    t[|t| - 1]
  }

  /** The freeze is on until a second after the last trigger, or that second is over. */
  ghost predicate FreezeTracksTriggers(cfg: Config, inputs: seq<Input>) {
    var s, t := After(cfg, inputs), TriggerTimes(cfg, inputs);
    && (s.freezeUntil.Some? ==> t != [] && s.freezeUntil.value == Last(t) + SECOND)
    && (t != [] ==> s.freezeUntil.Some? || (inputs != [] && inputs[|inputs| - 1].later >= Last(t) + SECOND))
    && (t != [] ==> inputs != [] && Last(t) <= inputs[|inputs| - 1].later)
  }

  lemma MonotonePrefix(inputs: seq<Input>)
    requires Monotone(inputs) && inputs != []
    ensures Monotone(inputs[..|inputs| - 1])
  {
  }

  /** A trigger needs the guard thawed and freezes it again; any other call leaves the
      freeze alone or finds it over. */
  lemma FreezeStep(cfg: Config, s: State, in': Input)
    ensures var (s', d) := Judge(cfg, s, in');
            if IsTrigger(d) then !Frozen(s, in'.now) && s'.freezeUntil == Some(in'.later + SECOND)
            else if Frozen(s, in'.now) then s'.freezeUntil == s.freezeUntil
            else s'.freezeUntil == None
  {
    hide Oscillates, Clipped, InDeadband, Within5s;
  }

  /** Triggers are at least a second apart, whatever commands come. */
  lemma {:induction false} TriggersAreSpaced(cfg: Config, inputs: seq<Input>)
    requires Monotone(inputs)
    ensures Spaced(SECOND, TriggerTimes(cfg, inputs)) && FreezeTracksTriggers(cfg, inputs)
  {
    hide Judge;
    if inputs != [] {
      var front := inputs[..|inputs| - 1];
      MonotonePrefix(inputs);
      TriggersAreSpaced(cfg, front);
      FreezeStep(cfg, After(cfg, front), inputs[|inputs| - 1]);
      assert front != [] ==> front[|front| - 1].later <= inputs[|inputs| - 1].now;
    }
  }

  /** Narrowing a window twice is narrowing it once. */
  lemma {:induction false} WithinTwice(t: seq<int>, before: int, now: int)
    requires before <= now
    ensures Within5s(Within5s(t, before), now) == Within5s(t, now)
  {
    if t != [] {
      WithinTwice(t[..|t| - 1], before, now);
    }
  }

  /** Only a trigger touches the remembered triggers. */
  lemma RecentStep(cfg: Config, s: State, in': Input)
    ensures var (s', d) := Judge(cfg, s, in');
            s'.recentTriggers ==
              if IsTrigger(d) then Within5s(s.recentTriggers, in'.later) + [in'.later] else s.recentTriggers
  {
    hide Oscillates, Clipped, Within5s, InDeadband;
  }

  /** The triggers that the guard remembers are the run's triggers of the five seconds
      up to the latest one. */
  lemma {:induction false} RecentIsHistory(cfg: Config, inputs: seq<Input>)
    requires Monotone(inputs)
    ensures var t := TriggerTimes(cfg, inputs);
            After(cfg, inputs).recentTriggers == if t == [] then [] else Within5s(t, Last(t))
  {
    hide Judge;
    if inputs != [] {
      var front := inputs[..|inputs| - 1];
      MonotonePrefix(inputs);
      RecentIsHistory(cfg, front);
      TriggersAreSpaced(cfg, front);
      var t, later := TriggerTimes(cfg, front), inputs[|inputs| - 1].later;
      RecentStep(cfg, After(cfg, front), inputs[|inputs| - 1]);
      if t != [] {
        assert Last(t) <= later;
        WithinTwice(t, Last(t), later);
      }
      assert (t + [later])[..|t|] == t;
    }
  }

  /** Of triggers a second apart, k before the last is k seconds before it. */
  lemma {:induction false} SpacedSpan(t: seq<int>, i: nat)
    requires Spaced(SECOND, t) && i < |t|
    ensures Last(t) - t[i] >= (|t| - 1 - i) * SECOND
    decreases |t| - i
  {
    if i < |t| - 1 {
      SpacedSpan(t, i + 1);
    }
  }

  lemma SpacedFront(t: seq<int>)
    requires Spaced(SECOND, t) && t != []
    ensures Spaced(SECOND, t[..|t| - 1])
    ensures |t| >= 2 ==> Last(t) - t[|t| - 2] >= SECOND
  {
  }

  /** The window picks a stretch at the end. */
  lemma {:induction false} WithinIsSuffix(t: seq<int>, now: int) returns (k: nat)
    requires Spaced(SECOND, t)
    ensures k <= |t| && Within5s(t, now) == t[k..]
    ensures k < |t| ==> now - t[k] < 5 * SECOND && now - Last(t) < 5 * SECOND
  {
    hide Spaced;
    if t == [] {
      k := 0;
    } else {
      var front := t[..|t| - 1];
      SpacedFront(t);
      k := WithinIsSuffix(front, now);
      if now - Last(t) < 5 * SECOND {
        assert t[k..] == front[k..] + [Last(t)];
      } else {
        assert k >= |front|;
        k := |t|;
      }
    }
  }

  /** Five seconds hold at most five triggers. */
  lemma AtMostFive(t: seq<int>)
    requires Spaced(SECOND, t) && t != []
    ensures |Within5s(t, Last(t))| <= 5
  {
    var k := WithinIsSuffix(t, Last(t));
    if k < |t| {
      SpacedSpan(t, k);
    }
  }

  /** Escalation is by the run's own history: a trigger aborts exactly when it makes at
      least abortCount triggers within five seconds. There are never more than five, so
      a larger abortCount disables the escalation. */
  lemma AbortExactly(cfg: Config, inputs: seq<Input>)
    requires Monotone(inputs) && inputs != [] && IsTrigger(Decided(cfg, inputs))
    ensures var t := TriggerTimes(cfg, inputs);
            && t != []
            && |Within5s(t, Last(t))| <= 5
            && (Decided(cfg, inputs).Abort? <==> |Within5s(t, Last(t))| >= cfg.abortCount)
    ensures cfg.abortCount > 5 ==> Decided(cfg, inputs).Degrade?
  {
    hide Oscillates, Clipped;
    RecentIsHistory(cfg, inputs);
    TriggersAreSpaced(cfg, inputs);
    AtMostFive(TriggerTimes(cfg, inputs));
  }

  /** A call is suppressed exactly when its offsets are inside the dead band or it comes
      within a second of the run's last trigger. */
  lemma SuppressedExactly(cfg: Config, inputs: seq<Input>, next: Input)
    requires Monotone(inputs + [next])
    ensures var t := TriggerTimes(cfg, inputs);
            Decided(cfg, inputs + [next]) == Suppress <==>
            InDeadband(cfg, next.command) || (t != [] && next.now < Last(t) + SECOND)
  {
    hide Oscillates, Clipped, InDeadband;
    assert (inputs + [next])[..|inputs|] == inputs;
    MonotonePrefix(inputs + [next]);
    TriggersAreSpaced(cfg, inputs);
    if inputs != [] {
      assert (inputs + [next])[|inputs| - 1].later <= (inputs + [next])[|inputs|].now;
    }
  }

  /** Every call is counted once: allowed, suppressed or a trigger. */
  lemma {:induction false} CountsAddUp(cfg: Config, inputs: seq<Input>)
    ensures var s := After(cfg, inputs);
            s.allowed + s.suppressed + s.triggers == |inputs| && s.triggers == |TriggerTimes(cfg, inputs)|
  {
    hide Oscillates, Clipped;
    if inputs != [] {
      CountsAddUp(cfg, inputs[..|inputs| - 1]);
    }
  }

  // ---- The sign history ----

  lemma {:induction false} ChangesOfTail(s: seq<bool>)
    requires s != []
    ensures Changes(s[1..]) <= Changes(s)
  {
    if |s| >= 2 {
      ChangesOfTail(s[..|s| - 1]);
      assert s[..|s| - 1][1..] == s[1..][..|s| - 2];
    }
  }

  function Portion(threshold: real, n: nat): real {
    threshold * n as real
  }

  /** Sign turns make up at most the threshold's share of the history. */
  predicate Calm(cfg: Config, history: seq<bool>) {
    Changes(history) as real <= Portion(cfg.threshold, |history|)
  }

  lemma PortionGrows(t: real, n: nat)
    requires t >= 0.0
    ensures 0.0 <= Portion(t, n) <= Portion(t, n + 1)
  {
    assert t * (n + 1) as real == t * n as real + t;
  }

  lemma RateBoundsChanges(changes: nat, n: nat, t: real)
    requires n > 0 && !(Rate(changes, n) > t)
    ensures changes as real <= Portion(t, n)
  {
    var r := Rate(changes, n);
    assert r * n as real == changes as real;
    assert (t - r) * n as real >= 0.0;
    assert (t - r) * n as real == t * n as real - r * n as real;
  }

  lemma PushKeepsCalm(cfg: Config, history: seq<bool>, yaw: real)
    requires Sensible(cfg) && Calm(cfg, history) && |history| <= cfg.window
    requires Abs(yaw) > MIN_YAW && !Oscillates(cfg, history, yaw)
    ensures Calm(cfg, Pushed(cfg, history, yaw > 0.0))
  {
    hide Portion, Rate;
    var n, longer := |history|, history + [yaw > 0.0];
    assert longer[..n] == history;
    PortionGrows(cfg.threshold, n);
    if n > 0 && history[n - 1] != (yaw > 0.0) {
      RateBoundsChanges(Changes(longer), n, cfg.threshold);
    }
    ChangesOfTail(longer);
  }

  /** The history never outgrows its window. */
  lemma {:induction false} HistoryFits(cfg: Config, inputs: seq<Input>)
    ensures |After(cfg, inputs).history| <= cfg.window
  {
    hide Oscillates, Clipped;
    if inputs != [] {
      HistoryFits(cfg, inputs[..|inputs| - 1]);
    }
  }

  /** With turns that are strong enough to be noticed, the history stays calm in every
      run. */
  lemma {:induction false} HistoryStaysCalm(cfg: Config, inputs: seq<Input>)
    requires Sensible(cfg)
    requires forall i | 0 <= i < |inputs| :: Abs(Clipped(cfg, inputs[i].command).yawRate) > MIN_YAW
    ensures Calm(cfg, After(cfg, inputs).history)
  {
    hide Oscillates, Calm, Clipped;
    if inputs == [] {
      NoHistoryIsCalm(cfg);
    } else {
      var front, in' := inputs[..|inputs| - 1], inputs[|inputs| - 1];
      HistoryStaysCalm(cfg, front);
      HistoryFits(cfg, front);
      var s, yaw := After(cfg, front), Clipped(cfg, in'.command).yawRate;
      if Oscillates(cfg, s.history, yaw) {
        NoHistoryIsCalm(cfg);
      } else {
        PushKeepsCalm(cfg, s.history, yaw);
      }
    }
  }

  lemma NoHistoryIsCalm(cfg: Config)
    ensures Calm(cfg, [])
  {
  }

  // ---- When weak turns break the bound ----

  /** The window is so short, or the threshold so high, that no history can hold too many
      sign changes. */
  predicate NothingToDetect(cfg: Config) {
    Portion(cfg.threshold, cfg.window) >= cfg.window as real - 1.0
  }

  lemma {:induction false} ChangesBound(s: seq<bool>)
    ensures s != [] ==> Changes(s) <= |s| - 1
    ensures s == [] ==> Changes(s) == 0
  {
    if |s| >= 2 {
      ChangesBound(s[..|s| - 1]);
    }
  }

  /** t is at least (w - 1) / w, hence at least (n - 1) / n for every smaller n. */
  lemma {:induction false} PortionBelow(t: real, n: nat, w: nat)
    requires t >= 0.0 && 1 <= n <= w && Portion(t, w) >= w as real - 1.0
    ensures Portion(t, n) >= n as real - 1.0
    decreases w - n
  {
    if n < w {
      PortionBelow(t, n + 1, w);
      PortionNext(t, n);
      PortionMostly(t, n);
    }
  }

  lemma PortionNext(t: real, n: nat)
    ensures Portion(t, n + 1) == Portion(t, n) + t
  {
  }

  lemma PortionMostly(t: real, n: nat)
    ensures t >= 1.0 ==> Portion(t, n) >= n as real
  {
    if t >= 1.0 {
      assert (t - 1.0) * n as real >= 0.0;
    }
  }

  lemma AlwaysCalm(cfg: Config, history: seq<bool>)
    requires Sensible(cfg) && NothingToDetect(cfg) && |history| <= cfg.window
    ensures Calm(cfg, history)
  {
    hide Portion;
    ChangesBound(history);
    if history == [] {
      NoHistoryIsCalm(cfg);
    } else {
      PortionBelow(cfg.threshold, |history|, cfg.window);
    }
  }

  /** n signs ending in `last`, the final c of them turns and the others equal. */
  function Zigzag(n: nat, c: nat, last: bool): seq<bool> {
    if n == 0 then []
    else if c == 0 then Zigzag(n - 1, 0, last) + [last]
    else Zigzag(n - 1, c - 1, !last) + [last]
  }

  lemma ChangesPush(s: seq<bool>, sign: bool)
    requires s != []
    ensures Changes(s + [sign]) == Changes(s) + if s[|s| - 1] != sign then 1 else 0
  {
    assert (s + [sign])[..|s|] == s;
  }

  lemma {:induction false} ZigzagIs(n: nat, c: nat, last: bool)
    requires c < n
    ensures var s := Zigzag(n, c, last);
            && |s| == n && s[n - 1] == last && Changes(s) == c
            && (c <= n - 2 ==> s[0] == s[1])
  {
    hide Changes;
    if n == 1 {
      assert Zigzag(0, 0, last) == [] && Zigzag(n, c, last) == [last];
      assert Changes([last]) == 0 by { OneSign(last); }
    } else {
      var (c', last') := (if c == 0 then 0 else c - 1, if c == 0 then last else !last);
      ZigzagIs(n - 1, c', last');
      ChangesPush(Zigzag(n - 1, c', last'), last);
    }
  }

  lemma OneSign(sign: bool)
    ensures Changes([sign]) == 0
  {
  }

  /** Dropping the first of two equal signs keeps the count. */
  lemma {:induction false} ChangesWithoutFirst(s: seq<bool>)
    requires |s| >= 2 && s[0] == s[1]
    ensures Changes(s[1..]) == Changes(s)
  {
    if |s| >= 3 {
      ChangesWithoutFirst(s[..|s| - 1]);
      assert s[..|s| - 1][1..] == s[1..][..|s| - 2];
    }
  }

  /** The most sign changes that are still calm over n signs. */
  function MostCalm(t: real, n: nat): int {
    Portion(t, n).Floor
  }

  lemma MostCalmIs(t: real, n: nat)
    requires t >= 0.0 && Portion(t, n) < n as real - 1.0
    ensures 0 <= MostCalm(t, n) <= n - 2
    ensures MostCalm(t, n) as real <= Portion(t, n) < MostCalm(t, n) as real + 1.0
  {
    hide Portion;
    PortionIsPositive(t, n);
  }

  lemma PortionIsPositive(t: real, n: nat)
    requires t >= 0.0
    ensures Portion(t, n) >= 0.0
  {
  }

  /** A calm history of full length that a weak turn to `sign` makes restless. */
  lemma WeakTurnBreaks(cfg: Config, yaw: real) returns (h: seq<bool>)
    requires Sensible(cfg) && !NothingToDetect(cfg) && Abs(yaw) <= MIN_YAW
    ensures Calm(cfg, h) && |h| <= cfg.window && !Oscillates(cfg, h, yaw)
    ensures !Calm(cfg, Pushed(cfg, h, yaw > 0.0))
  {
    hide Portion, MostCalm, Changes, Zigzag, Rate;
    var (w, sign) := (cfg.window, yaw > 0.0);
    MostCalmIs(cfg.threshold, w);
    var c: nat := MostCalm(cfg.threshold, w);
    h := Zigzag(w, c, !sign);
    ZigzagIs(w, c, !sign);
    var longer := h + [sign];
    ChangesPush(h, sign);
    ChangesWithoutFirst(longer);
  }

  /** A turn keeps every history calm exactly when it is strong enough to be looked at, or
      there is nothing to detect: the whole family of weak turns fails otherwise. */
  lemma CalmIsKeptExactly(cfg: Config, yaw: real)
    requires Sensible(cfg)
    ensures (forall h | Calm(cfg, h) && |h| <= cfg.window && !Oscillates(cfg, h, yaw) ::
               Calm(cfg, Pushed(cfg, h, yaw > 0.0)))
       <==> Abs(yaw) > MIN_YAW || NothingToDetect(cfg)
  {
    hide Calm, Oscillates, NothingToDetect;
    if Abs(yaw) > MIN_YAW || NothingToDetect(cfg) {
      forall h | Calm(cfg, h) && |h| <= cfg.window && !Oscillates(cfg, h, yaw)
        ensures Calm(cfg, Pushed(cfg, h, yaw > 0.0))
      {
        if NothingToDetect(cfg) {
          AlwaysCalm(cfg, Pushed(cfg, h, yaw > 0.0));
        } else {
          PushKeepsCalm(cfg, h, yaw);
        }
      }
    } else {
      var h := WeakTurnBreaks(cfg, yaw);
    }
  }

  /** The weak command for a sign, with offsets outside the dead band. */
  function WeakCommand(cfg: Config, sign: bool): Command {
    var outside := if cfg.deadband > 0.0 then cfg.deadband else 0.0;
    Command(if sign then MIN_YAW else -MIN_YAW, 0.0, outside, outside)
  }

  lemma WeakCommandIs(cfg: Config, sign: bool, history: seq<bool>)
    requires cfg.maxYaw > 0.0
    ensures var yaw := Clipped(cfg, WeakCommand(cfg, sign)).yawRate;
            Abs(yaw) <= MIN_YAW && (yaw > 0.0 <==> sign) && !Oscillates(cfg, history, yaw)
    ensures !InDeadband(cfg, WeakCommand(cfg, sign))
  {
    hide Rate;
  }

  /** A command outside the dead band that is not taken for an oscillation is let through. */
  lemma Passes(cfg: Config, inputs: seq<Input>, next: Input)
    requires var s := After(cfg, inputs); !Frozen(s, next.now) && !InDeadband(cfg, next.command)
    requires !Oscillates(cfg, After(cfg, inputs).history, Clipped(cfg, next.command).yawRate)
    ensures Decided(cfg, inputs + [next]).Allow?
    ensures var (before, s) := (After(cfg, inputs), After(cfg, inputs + [next]));
            && s.freezeUntil == None
            && s.history == Pushed(cfg, before.history, Clipped(cfg, next.command).yawRate > 0.0)
  {
    hide Oscillates, Clipped, InDeadband, Pushed;
    assert (inputs + [next])[..|inputs|] == inputs;
  }

  lemma StartsInitial(cfg: Config)
    ensures After(cfg, []) == INITIAL
  {
  }

  /** Any short sequence of signs is the history of a run of weak turns from the start. */
  lemma {:induction false} WeakRun(cfg: Config, signs: seq<bool>) returns (inputs: seq<Input>)
    requires cfg.maxYaw > 0.0 && |signs| <= cfg.window
    ensures Monotone(inputs) && |inputs| == |signs|
    ensures forall i | 0 <= i < |inputs| :: inputs[i] == Input(WeakCommand(cfg, signs[i]), i, i)
    ensures After(cfg, inputs).history == signs && After(cfg, inputs).freezeUntil == None
  {
    hide Oscillates, Clipped, WeakCommand, InDeadband, After, Judge;
    if signs == [] {
      inputs := [];
      StartsInitial(cfg);
    } else {
      var n := |signs| - 1;
      var front := WeakRun(cfg, signs[..n]);
      var next := Input(WeakCommand(cfg, signs[n]), n, n);
      inputs := front + [next];
      WeakCommandIs(cfg, signs[n], signs[..n]);
      Passes(cfg, front, next);
      assert signs == signs[..n] + [signs[n]];
    }
  }

  predicate AllNegative(s: seq<bool>) {
    forall i | 0 <= i < |s| :: !s[i]
  }

  lemma {:induction false} EqualSignsNoChange(s: seq<bool>)
    requires AllNegative(s)
    ensures Changes(s) == 0
  {
    if |s| >= 2 {
      EqualSignsNoChange(s[..|s| - 1]);
    }
  }

  /** With no yaw allowed at all the sign is always the same. */
  lemma {:induction false} NoYawNoSigns(cfg: Config, inputs: seq<Input>)
    requires Sensible(cfg) && cfg.maxYaw == 0.0
    ensures AllNegative(After(cfg, inputs).history)
  {
    hide Oscillates, InDeadband, Within5s;
    if inputs != [] {
      NoYawNoSigns(cfg, inputs[..|inputs| - 1]);
      assert !(Clipped(cfg, inputs[|inputs| - 1].command).yawRate > 0.0);
      hide Clipped;
    }
  }

  /** The limits under which every run from the start stays calm, whatever the commands. */
  lemma RunsStayCalmExactly(cfg: Config)
    requires Sensible(cfg)
    ensures (forall inputs | Monotone(inputs) :: Calm(cfg, After(cfg, inputs).history))
       <==> cfg.maxYaw == 0.0 || NothingToDetect(cfg)
  {
    hide Portion, After, Changes;
    if NothingToDetect(cfg) {
      forall inputs | Monotone(inputs) ensures Calm(cfg, After(cfg, inputs).history) {
        HistoryFits(cfg, inputs);
        AlwaysCalm(cfg, After(cfg, inputs).history);
      }
    } else if cfg.maxYaw == 0.0 {
      forall inputs | Monotone(inputs) ensures Calm(cfg, After(cfg, inputs).history) {
        NoYawNoSigns(cfg, inputs);
        EqualSignsNoChange(After(cfg, inputs).history);
        PortionIsPositive(cfg.threshold, |After(cfg, inputs).history|);
      }
    } else {
      MostCalmIs(cfg.threshold, cfg.window);
      var c: nat := MostCalm(cfg.threshold, cfg.window) + 1;
      ZigzagIs(cfg.window, c, true);
      var inputs := WeakRun(cfg, Zigzag(cfg.window, c, true));
    }
  }

  /** The default limits: window 30 and threshold one half. */
  const DEFAULTS := Config(0.05, 30.0, 15.0, 0.3, 30, 0.5, 3)

  /** With them three commands from the start do it, two of them weak turns, and all three
      are let through. */
  lemma WeakTurnsEscape()
    ensures var (a, b, c) := (Input(Command(1.0, 0.0, 0.2, 0.2), 0, 0),
                              Input(Command(-0.1, 0.0, 0.2, 0.2), 1, 1),
                              Input(Command(0.1, 0.0, 0.2, 0.2), 2, 2));
            && Monotone([a, b, c])
            && Decided(DEFAULTS, [a]).Allow? && Decided(DEFAULTS, [a, b]).Allow? && Decided(DEFAULTS, [a, b, c]).Allow?
            && Calm(DEFAULTS, After(DEFAULTS, [a, b]).history)
            && !Calm(DEFAULTS, After(DEFAULTS, [a, b, c]).history)
  {
    hide Rate, After, Decided, Judge;
    var (a, b, c) := (Input(Command(1.0, 0.0, 0.2, 0.2), 0, 0),
                      Input(Command(-0.1, 0.0, 0.2, 0.2), 1, 1),
                      Input(Command(0.1, 0.0, 0.2, 0.2), 2, 2));
    assert After(DEFAULTS, []) == INITIAL by { StartsInitial(DEFAULTS); }
    assert [] + [a] == [a] && [a] + [b] == [a, b] && [a, b] + [c] == [a, b, c];
    Passes(DEFAULTS, [], a);
    Passes(DEFAULTS, [a], b);
    Passes(DEFAULTS, [a, b], c);
    SignsOf();
    assert After(DEFAULTS, [a, b]).history == [true, false];
  }

  lemma SignsOf()
    ensures Changes([true, false]) == 1 && Changes([true, false, true]) == 2
    ensures [true] + [false] == [true, false] && [true, false] + [true] == [true, false, true]
    ensures Portion(0.5, 2) == 1.0 && Portion(0.5, 3) == 1.5
  {
    assert [true, false][..1] == [true] && [true, false, true][..2] == [true, false];
  }
}
