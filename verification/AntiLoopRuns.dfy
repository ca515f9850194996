/** The guard's decisions, read off from nothing but the run so far. */
module AntiLoopRuns {
  import opened AntiLoop
  import opened Common

  predicate TurnsAt(s: seq<bool>, i: nat) {
    i + 1 < |s| && s[i] != s[i + 1]
  }

  /** The places where neighbours differ. */
  ghost function Turns(s: seq<bool>): set<nat> {
    set i: nat | i < |s| && TurnsAt(s, i)
  }

  /** Changes counts them. */
  lemma {:induction false} ChangesCountTurns(s: seq<bool>)
    ensures Changes(s) == |Turns(s)|
  {
    if |s| < 2 {
      assert Turns(s) == {};
    } else {
      var front := s[..|s| - 1];
      ChangesCountTurns(front);
      var last: nat := |s| - 2;
      forall i: nat ensures TurnsAt(s, i) <==> TurnsAt(front, i) || (i == last && TurnsAt(s, last)) {}
      assert Turns(s) == Turns(front) + if TurnsAt(s, last) then {last} else {};
    }
  }

  /** The signs of the commands let through since the run's last trigger. */
  function SignsSince(cfg: Config, inputs: seq<Input>): seq<bool> {
    if inputs == [] then []
    else
      var (before, d) := (SignsSince(cfg, inputs[..|inputs| - 1]), Decided(cfg, inputs));
      if IsTrigger(d) then []
      else if d.Allow? then before + [d.command.yawRate > 0.0]
      else before
  }

  /** The last n entries, or all if there are fewer. */
  function LastOf(s: seq<bool>, n: nat): seq<bool> {
    if |s| <= n then s else s[|s| - n..]
  }

  lemma PushedIsLastOf(cfg: Config, s: seq<bool>, sign: bool)
    ensures Pushed(cfg, LastOf(s, cfg.window), sign) == LastOf(s + [sign], cfg.window)
  {
  }

  /** How one call changes the remembered signs. */
  lemma HistoryStep(cfg: Config, s: State, in': Input)
    ensures var (s', d) := Judge(cfg, s, in');
            s'.history == if IsTrigger(d) then []
                          else if d.Allow? then Pushed(cfg, s.history, d.command.yawRate > 0.0)
                          else s.history
  {
    hide Oscillates, Clipped, Within5s, InDeadband, Pushed;
  }

  /** What the guard remembers: the last `window` signs let through since the last trigger. */
  lemma {:induction false} HistoryIsRecentSigns(cfg: Config, inputs: seq<Input>)
    ensures After(cfg, inputs).history == LastOf(SignsSince(cfg, inputs), cfg.window)
  {
    hide Judge, Pushed, LastOf;
    if inputs == [] {
      assert After(cfg, inputs).history == [] == LastOf([], cfg.window) by { LastOfNothing(cfg.window); }
    } else {
      var (front, in') := (inputs[..|inputs| - 1], inputs[|inputs| - 1]);
      HistoryIsRecentSigns(cfg, front);
      HistoryStep(cfg, After(cfg, front), in');
      LastOfNothing(cfg.window);
      var d := Decided(cfg, inputs);
      if d.Allow? {
        PushedIsLastOf(cfg, SignsSince(cfg, front), d.command.yawRate > 0.0);
      }
    }
  }

  lemma LastOfNothing(n: nat)
    ensures LastOf([], n) == []
  {
  }

  /** A call comes within a second of the run's last trigger. */
  ghost predicate InFreeze(cfg: Config, inputs: seq<Input>, next: Input) {
    var t := TriggerTimes(cfg, inputs);
    t != [] && next.now < Last(t) + 1_000_000_000
  }

  predicate InBand(cfg: Config, c: Command) {
    Abs(c.offsetX) < cfg.deadband && Abs(c.offsetY) < cfg.deadband
  }

  /** A strong turn against the last sign remembered that makes the turns too many: more than
      the threshold's share of the signs remembered. */
  ghost predicate TooManyTurns(cfg: Config, inputs: seq<Input>, next: Input) {
    var h := LastOf(SignsSince(cfg, inputs), cfg.window);
    var yaw := Clipped(cfg, next.command).yawRate;
    && h != [] && h[|h| - 1] != (yaw > 0.0) && (yaw > 0.1 || yaw < -0.1)
    && |Turns(h + [yaw > 0.0])| as real > cfg.threshold * |h| as real
  }

  lemma RateIsShare(changes: nat, n: nat, t: real)
    requires n > 0
    ensures Rate(changes, n) > t <==> changes as real > t * n as real
  {
    var r := Rate(changes, n);
    assert r * n as real == changes as real;
    if r > t {
      assert (r - t) * n as real > 0.0;
    } else {
      assert (t - r) * n as real >= 0.0;
    }
  }

  lemma OscillatesExactly(cfg: Config, inputs: seq<Input>, next: Input)
    ensures Oscillates(cfg, After(cfg, inputs).history, Clipped(cfg, next.command).yawRate) <==>
            TooManyTurns(cfg, inputs, next)
  {
    hide Rate, Clipped, After, SignsSince, LastOf, Turns, Changes;
    HistoryIsRecentSigns(cfg, inputs);
    var (h, yaw) := (After(cfg, inputs).history, Clipped(cfg, next.command).yawRate);
    ChangesCountTurns(h + [yaw > 0.0]);
    if h != [] {
      RateIsShare(Changes(h + [yaw > 0.0]), |h|, cfg.threshold);
    }
  }

  /** Every decision over every run: nothing gets through in the dead band or within a second
      of a trigger; any other call triggers if and only if it makes the turns too many; and
      if it does not, the clipped command is let through. */
  lemma DecisionExactly(cfg: Config, inputs: seq<Input>, next: Input)
    requires Monotone(inputs + [next])
    ensures var d := Decided(cfg, inputs + [next]);
            var quiet := InBand(cfg, next.command) || InFreeze(cfg, inputs, next);
            && (d == Suppress <==> quiet)
            && (IsTrigger(d) <==> !quiet && TooManyTurns(cfg, inputs, next))
            && (d == Allow(Clipped(cfg, next.command)) <==> !quiet && !TooManyTurns(cfg, inputs, next))
  {
    hide TooManyTurns, TriggerTimes, Clipped, Oscillates, Within5s;
    SuppressedExactly(cfg, inputs, next);
    OscillatesExactly(cfg, inputs, next);
    assert (inputs + [next])[..|inputs|] == inputs;
  }

  /** The triggers less than five seconds old. */
  ghost function Recent(t: seq<int>, now: int): set<nat> {
    set i: nat | i < |t| && now - t[i] < 5_000_000_000
  }

  lemma {:induction false} WithinCounts(t: seq<int>, now: int)
    ensures |Within5s(t, now)| == |Recent(t, now)|
  {
    if t == [] {
      assert Recent(t, now) == {};
    } else {
      var n: nat := |t| - 1;
      WithinCounts(t[..n], now);
      assert Recent(t, now) == Recent(t[..n], now) + if now - t[n] < 5_000_000_000 then {n} else {};
    }
  }

  /** And which trigger it is: the run's triggers of the last five seconds, this one included,
      decide between degrading and aborting. */
  lemma EscalationExactly(cfg: Config, inputs: seq<Input>, next: Input)
    requires Monotone(inputs + [next]) && IsTrigger(Decided(cfg, inputs + [next]))
    ensures var t := TriggerTimes(cfg, inputs) + [next.later];
            && TriggerTimes(cfg, inputs + [next]) == t
            && (Decided(cfg, inputs + [next]) == Abort <==> |Recent(t, next.later)| >= cfg.abortCount)
            && (Decided(cfg, inputs + [next]) == Degrade <==> |Recent(t, next.later)| < cfg.abortCount)
  {
    hide Judge, Decided, Within5s;
    AbortExactly(cfg, inputs + [next]);
    WithinCounts(TriggerTimes(cfg, inputs) + [next.later], next.later);
    assert (inputs + [next])[..|inputs|] == inputs;
  }

  /** Under the default limits a single reversal is no oscillation: three commands to the
      right, then one to the left, are all let through. */
  lemma OneTurnIsAllowed()
    ensures var right := Command(10.0, 0.0, 0.2, 0.0);
            var inputs := [Input(right, 0, 0), Input(right, 1, 1), Input(right, 2, 2)];
            var turn := Input(Command(-10.0, 0.0, -0.2, 0.0), 3, 3);
            Decided(DEFAULTS, inputs + [turn]) == Allow(turn.command)
  {
    hide Rate, After, Decided, Judge;
    var right := Command(10.0, 0.0, 0.2, 0.0);
    var (a, b, c) := (Input(right, 0, 0), Input(right, 1, 1), Input(right, 2, 2));
    var turn := Input(Command(-10.0, 0.0, -0.2, 0.0), 3, 3);
    StartsInitial(DEFAULTS);
    assert [] + [a] == [a] && [a] + [b] == [a, b] && [a, b] + [c] == [a, b, c];
    Passes(DEFAULTS, [], a);
    Passes(DEFAULTS, [a], b);
    Passes(DEFAULTS, [a, b], c);
    assert After(DEFAULTS, [a, b, c]).history == [true, true, true];
    assert [true, true, true, false][..3] == [true, true, true] && [true, true, true][..2] == [true, true];
    assert [true, true, true] + [false] == [true, true, true, false];
    assert Changes([true, true, true, false]) == 1;
    RateIsShare(1, 3, 0.5);
    Passes(DEFAULTS, [a, b, c], turn);
    AllowsItsInput(DEFAULTS, [a, b, c], turn);
  }

  lemma AllowsItsInput(cfg: Config, inputs: seq<Input>, next: Input)
    requires Decided(cfg, inputs + [next]).Allow?
    ensures Decided(cfg, inputs + [next]) == Allow(Clipped(cfg, next.command))
  {
    hide Oscillates, Clipped;
    assert (inputs + [next])[..|inputs|] == inputs;
  }
}
