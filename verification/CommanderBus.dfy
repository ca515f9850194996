/** The commander's bus loop: tracks and watchdog expiries arrive, corrections go out. */
module CommanderBus {
  import opened Common
  import opened Boxes
  import opened StateMachine
  import opened Commander
  import AntiLoop

  const TRACK_BUDGET: nat := 32

  datatype BusConfig = BusConfig(frameWidth: nat, frameHeight: nat, maxTrackMisses: nat)

  datatype TrackMsg = TrackMsg(trackId: nat, misses: nat, bbox: BoundingBox)

  /** A track as it arrives, with what the environment does while it is handled. */
  datatype Arrival = Arrival(track: TrackMsg, env: Env)

  /** What one turn of the loop finds: a telemetry sample or none, newly queued tracks,
      the watchdogs that have expired, and how an abort in this turn would go. */
  datatype Turn = Turn(telemetry: bool, arrivals: seq<Arrival>, expired: seq<Action>, wait: nat, fcOk: bool)

  datatype Stats = Stats(tracks: nat, telemetry: nat, sent: nat, suppressed: nat)

  /** The commander, the statistics and the tracks still queued. */
  datatype Loop = Loop(c: Cmdr, stats: Stats, queue: seq<Arrival>)

  function Offset(b: BusConfig, box: BoundingBox): (real, real)
    requires b.frameWidth > 0 && b.frameHeight > 0
  {
    var (cx, cy) := (box.x as real + box.width as real / 2.0, box.y as real + box.height as real / 2.0);
    var (w, h) := (b.frameWidth as real / 2.0, b.frameHeight as real / 2.0);
    ((cx - w) / w, (cy - h) / h)
  }

  /** One track of the drain. */
  function HandleTrack(cfg: Config, b: BusConfig, c: Cmdr, stats: Stats, a: Arrival): (Cmdr, Stats)
    requires b.frameWidth > 0 && b.frameHeight > 0
  {
    var counted := stats.(tracks := stats.tracks + 1);
    var chosen := if c.active.None? then SelectTarget(c, a.track.trackId).0 else c;
    if a.track.misses > b.maxTrackMisses || chosen.active != Some(a.track.trackId) then (chosen, counted)
    else
      var (updated, ok) := Update(cfg, chosen, Some(Offset(b, a.track.bbox)), a.env);
      (updated,
       if !ok then counted
       else if updated.limiter.sent > chosen.limiter.sent then counted.(sent := updated.limiter.sent)
       else counted.(suppressed := counted.suppressed + 1))
  }

  function Drain(cfg: Config, b: BusConfig, c: Cmdr, stats: Stats, batch: seq<Arrival>): (Cmdr, Stats)
    requires b.frameWidth > 0 && b.frameHeight > 0
  {
    if batch == [] then (c, stats)
    else
      var (c', stats') := Drain(cfg, b, c, stats, batch[..|batch| - 1]);
      HandleTrack(cfg, b, c', stats', batch[|batch| - 1])
  }

  /** The expiries: degrade inside the commander, then abort and reset once if asked to. */
  function HandleExpiries(c: Cmdr, expired: seq<Action>, wait: nat, fcOk: bool): Cmdr {
    var degraded := Expire(c, expired);
    if AbortAction in expired then Reset(AbortNow(degraded, wait, fcOk).0).0 else degraded
  }

  function TakeTurn(cfg: Config, b: BusConfig, l: Loop, turn: Turn): Loop
    requires b.frameWidth > 0 && b.frameHeight > 0
  {
    var queue := l.queue + turn.arrivals;
    var n := Min(|queue|, TRACK_BUDGET);
    var heard := if turn.telemetry then l.stats.(telemetry := l.stats.telemetry + 1) else l.stats;
    var (drained, stats) := Drain(cfg, b, l.c, heard, queue[..n]);
    Loop(HandleExpiries(drained, turn.expired, turn.wait, turn.fcOk), stats, queue[n..])
  }

  function RunTurns(cfg: Config, b: BusConfig, l: Loop, turns: seq<Turn>): Loop
    requires b.frameWidth > 0 && b.frameHeight > 0
  {
    if turns == [] then l
    else TakeTurn(cfg, b, RunTurns(cfg, b, l, turns[..|turns| - 1]), turns[|turns| - 1])
  }

  const NO_STATS: Stats := Stats(0, 0, 0, 0)

  /** The commander when the loop starts. */
  function Started(c: Cmdr, fcOk: bool): Cmdr {
    StartScanning(Connect(c, fcOk).0).0
  }

  class CommanderBus {
    const b: BusConfig

    constructor (b: BusConfig)
      ensures this.b == b
    {
      this.b := b;
    }

    method HandleOne(commander: Commander, stats: Stats, a: Arrival) returns (stats': Stats)
      requires commander.Valid() && b.frameWidth > 0 && b.frameHeight > 0
      modifies commander, commander.machine, commander.guard, commander.limiter, commander.fc
      ensures commander.Valid()
      ensures (commander.At(), stats') == HandleTrack(commander.cfg, b, old(commander.At()), stats, a)
    {
      hide Update, SelectTarget, Offset;
      stats' := stats.(tracks := stats.tracks + 1);
      if commander.active != Some(a.track.trackId) {
        if commander.active.None? {
          var selected := commander.Select(a.track.trackId);
        }
      }
      if a.track.misses <= b.maxTrackMisses && commander.active == Some(a.track.trackId) {
        var before := commander.limiter.sentCount;
        var ok := commander.UpdateFrame(Some(Offset(b, a.track.bbox)), a.env);
        if ok {
          var after := commander.limiter.sentCount;
          if after > before {
            stats' := stats'.(sent := after);
          } else {
            stats' := stats'.(suppressed := stats'.suppressed + 1);
          }
        }
      }
    }

    /** Handle queued tracks until the queue or the turn's budget is used up. */
    method DrainQueue(commander: Commander, stats: Stats, tracks: seq<Arrival>)
      returns (stats': Stats, queue: seq<Arrival>)
      requires commander.Valid() && b.frameWidth > 0 && b.frameHeight > 0
      modifies commander, commander.machine, commander.guard, commander.limiter, commander.fc
      ensures commander.Valid()
      ensures var n := Min(|tracks|, TRACK_BUDGET);
              && queue == tracks[n..]
              && (commander.At(), stats') == Drain(commander.cfg, b, old(commander.At()), stats, tracks[..n])
    {
      hide HandleTrack;
      stats', queue := stats, tracks;
      var drained := 0;
      while drained < TRACK_BUDGET && queue != []
        invariant drained <= TRACK_BUDGET && drained <= |tracks| && queue == tracks[drained..]
        invariant commander.Valid()
        invariant (commander.At(), stats') == Drain(commander.cfg, b, old(commander.At()), stats, tracks[..drained])
      {
        assert tracks[..drained + 1][..drained] == tracks[..drained];
        stats' := HandleOne(commander, stats', queue[0]);
        queue := queue[1..];
        drained := drained + 1;
      }
    }

    /** Expired watchdogs: the first that asks for an abort gets abort and reset. */
    method HandleExpired(commander: Commander, expired: seq<Action>, wait: nat, fcOk: bool)
      requires commander.Valid()
      modifies commander, commander.machine, commander.limiter, commander.fc
      ensures commander.Valid()
      ensures commander.At() == HandleExpiries(old(commander.At()), expired, wait, fcOk)
    {
      hide Expire, AbortNow, Reset;
      commander.ProcessWatchdogExpiries(expired);
      for i := 0 to |expired|
        invariant commander.Valid() && commander.At() == Expire(old(commander.At()), expired)
        invariant AbortAction !in expired[..i]
      {
        if expired[i].AbortAction? {
          var aborted := commander.AbortMission(wait, fcOk);
          var reset := commander.ResetToIdle();
          assert AbortAction in expired;
          break;
        }
      }
    }

    /** The main loop, over the turns it gets before its time is up. None is the error that
        ends the run when connecting or subscribing to the topics fails. */
    method Run(commander: Commander, fcOk: bool, subscribed: bool, turns: seq<Turn>) returns (stats: Option<Stats>)
      requires commander.Valid() && b.frameWidth > 0 && b.frameHeight > 0
      modifies commander, commander.machine, commander.guard, commander.limiter, commander.fc
      ensures commander.Valid()
      ensures stats.Some? <==> Connect(old(commander.At()), fcOk).1 && subscribed
      ensures if stats.Some?
              then var l := RunTurns(commander.cfg, b, Loop(Started(old(commander.At()), fcOk), NO_STATS, []), turns);
                   commander.At() == l.c && stats.value == l.stats
              else if Connect(old(commander.At()), fcOk).1 then commander.At() == Started(old(commander.At()), fcOk)
              else commander.At() == Connect(old(commander.At()), fcOk).0
    {
      hide Drain, HandleExpiries, Connect, StartScanning;
      var connected := commander.ConnectFc(fcOk);
      if !connected {
        return None;
      }
      var scanning := commander.BeginScanning();
      if !subscribed {
        return None;
      }
      var st := NO_STATS;
      var queue: seq<Arrival> := [];
      ghost var start := Loop(Started(old(commander.At()), fcOk), NO_STATS, []);
      for t := 0 to |turns|
        invariant commander.Valid()
        invariant Loop(commander.At(), st, queue) == RunTurns(commander.cfg, b, start, turns[..t])
      {
        ghost var l := Loop(commander.At(), st, queue);
        assert turns[..t + 1][..t] == turns[..t];
        if turns[t].telemetry {
          st := st.(telemetry := st.telemetry + 1);
        }
        queue := queue + turns[t].arrivals;
        st, queue := DrainQueue(commander, st, queue);
        HandleExpired(commander, turns[t].expired, turns[t].wait, turns[t].fcOk);
      }
      assert turns[..|turns|] == turns;
      return Some(st);
    }
  }

  // ---- Safety of whole runs ----

  /** The commands from the n-th on hold the message that goes with an abort. */
  predicate HasAborted(log: seq<FcCommand>, n: nat) {
    exists i :: n <= i < |log| && log[i].AbortRtl?
  }

  /** Among the commands from the n-th on, no position target follows such a message. */
  predicate QuietAfterAbort(log: seq<FcCommand>, n: nat) {
    forall i, j | n <= i < j < |log| && log[i].AbortRtl? :: !log[j].PositionTarget?
  }

  /** Once aborted, the commander is in Abort or, after a reset, in Idle. */
  ghost predicate Grounded(c: Cmdr, n: nat) {
    && n <= |c.log|
    && QuietAfterAbort(c.log, n)
    && (HasAborted(c.log, n) ==> c.machine.state == Abort || c.machine.state == Idle)
    && (c.machine.state == Abort ==> HasAborted(c.log, n))
  }

  lemma AbortGrounds(c: Cmdr, wait: nat, fcOk: bool, n: nat)
    requires Grounded(c, n)
    ensures var c' := AbortNow(c, wait, fcOk).0;
            Grounded(c', n) && c'.machine.state == Abort && HasAborted(c'.log, n)
  {
    var c' := AbortNow(c, wait, fcOk).0;
    assert c'.log[|c.log|].AbortRtl?;
    forall i | 0 <= i < |c.log| ensures c'.log[i] == c.log[i] {}
  }

  lemma SelectKeepsGrounded(c: Cmdr, id: nat, n: nat)
    requires Grounded(c, n)
    ensures Grounded(SelectTarget(c, id).0, n)
  {
    SelectOnlyFromScanning(c, id);
  }

  lemma SendKeepsGrounded(cfg: Config, c: Cmdr, cmd: AntiLoop.Command, env: Env, n: nat)
    requires Grounded(c, n) && c.active.Some? && CanSteer(c.machine.state)
    ensures Grounded(SendCorrection(cfg, c, cmd, env).0, n)
  {
    var c' := SendCorrection(cfg, c, cmd, env).0;
    forall i | n <= i < |c.log| ensures c'.log[i] == c.log[i] && !c.log[i].AbortRtl? {}
  }

  lemma UpdateKeepsGrounded(cfg: Config, c: Cmdr, offset: Option<(real, real)>, env: Env, n: nat)
    requires Grounded(c, n)
    ensures Grounded(Update(cfg, c, offset, env).0, n)
  {
    hide AntiLoop.Judge, SendCorrection, AbortNow, CommandFor, QuietAfterAbort, HasAborted;
    if c.active.Some? && offset.Some? && CanSteer(c.machine.state) {
      var now := c.clock + env.toGuard;
      var input := AntiLoop.Input(CommandFor(cfg, offset.value), now, now + env.toHandler);
      var (g, decision) := AntiLoop.Judge(cfg.guard, c.guard, input);
      var judged := c.(guard := g, clock := now + env.toHandler);
      match decision {
        case Allow(clipped) => SendKeepsGrounded(cfg, judged, clipped, env, n);
        case Suppress =>
        case Degrade =>
        case Abort => AbortGrounds(judged, env.toSend, env.fcOk, n);
      }
    }
  }

  lemma HandleTrackKeepsGrounded(cfg: Config, b: BusConfig, c: Cmdr, stats: Stats, a: Arrival, n: nat)
    requires b.frameWidth > 0 && b.frameHeight > 0 && Grounded(c, n)
    ensures Grounded(HandleTrack(cfg, b, c, stats, a).0, n)
  {
    hide Grounded, Update, SelectTarget, Offset;
    SelectKeepsGrounded(c, a.track.trackId, n);
    var chosen := if c.active.None? then SelectTarget(c, a.track.trackId).0 else c;
    UpdateKeepsGrounded(cfg, chosen, Some(Offset(b, a.track.bbox)), a.env, n);
  }

  lemma {:induction false} DrainKeepsGrounded(cfg: Config, b: BusConfig, c: Cmdr, stats: Stats,
                                              batch: seq<Arrival>, n: nat)
    requires b.frameWidth > 0 && b.frameHeight > 0 && Grounded(c, n)
    ensures Grounded(Drain(cfg, b, c, stats, batch).0, n)
  {
    hide Grounded, HandleTrack;
    if batch != [] {
      var front := batch[..|batch| - 1];
      DrainKeepsGrounded(cfg, b, c, stats, front, n);
      var (c', stats') := Drain(cfg, b, c, stats, front);
      HandleTrackKeepsGrounded(cfg, b, c', stats', batch[|batch| - 1], n);
    }
  }

  lemma {:induction false} ExpireKeepsGrounded(c: Cmdr, expired: seq<Action>, n: nat)
    requires Grounded(c, n)
    ensures Grounded(Expire(c, expired), n)
  {
    ExpireKeepsLog(c, expired);
    if expired != [] {
      ExpireKeepsGrounded(c, expired[..|expired| - 1], n);
      ExpireKeepsLog(c, expired[..|expired| - 1]);
    }
  }

  lemma TurnKeepsGrounded(cfg: Config, b: BusConfig, l: Loop, turn: Turn, n: nat)
    requires b.frameWidth > 0 && b.frameHeight > 0 && Grounded(l.c, n)
    ensures Grounded(TakeTurn(cfg, b, l, turn).c, n)
  {
    hide Drain, AbortNow, Expire, QuietAfterAbort, HasAborted;
    var queue := l.queue + turn.arrivals;
    var k := Min(|queue|, TRACK_BUDGET);
    var heard := if turn.telemetry then l.stats.(telemetry := l.stats.telemetry + 1) else l.stats;
    DrainKeepsGrounded(cfg, b, l.c, heard, queue[..k], n);
    var drained := Drain(cfg, b, l.c, heard, queue[..k]).0;
    ExpireKeepsGrounded(drained, turn.expired, n);
    AbortGrounds(Expire(drained, turn.expired), turn.wait, turn.fcOk, n);
  }

  lemma {:induction false} RunKeepsGrounded(cfg: Config, b: BusConfig, l: Loop, turns: seq<Turn>, n: nat)
    requires b.frameWidth > 0 && b.frameHeight > 0 && Grounded(l.c, n)
    ensures Grounded(RunTurns(cfg, b, l, turns).c, n)
  {
    hide Grounded, TakeTurn;
    if turns != [] {
      RunKeepsGrounded(cfg, b, l, turns[..|turns| - 1], n);
      TurnKeepsGrounded(cfg, b, RunTurns(cfg, b, l, turns[..|turns| - 1]), turns[|turns| - 1], n);
    }
  }

  /** Whatever arrives on the bus, and whatever state the commander was handed over in: once
      the run has aborted, by oscillation or by watchdog, and even if the return-to-launch
      command fails, it sends no further position target. */
  lemma NoCorrectionAfterAbort(cfg: Config, b: BusConfig, c: Cmdr, fcOk: bool, turns: seq<Turn>)
    requires b.frameWidth > 0 && b.frameHeight > 0 && Connect(c, fcOk).1
    ensures var c' := RunTurns(cfg, b, Loop(Started(c, fcOk), NO_STATS, []), turns).c;
            && QuietAfterAbort(c'.log, |c.log|)
            && (HasAborted(c'.log, |c.log|) ==> c'.machine.state == Abort || c'.machine.state == Idle)
  {
    RunKeepsGrounded(cfg, b, Loop(Started(c, fcOk), NO_STATS, []), turns, |c.log|);
  }

  /** The offset locates the box: scaled back it is the centre, and it is inside the unit
      square exactly when the centre is inside the frame. */
  lemma OffsetLocatesCentre(b: BusConfig, box: BoundingBox)
    requires b.frameWidth > 0 && b.frameHeight > 0
    ensures var (o, w, h) := (Offset(b, box), b.frameWidth as real, b.frameHeight as real);
            var (cx, cy) := (box.x as real + box.width as real / 2.0, box.y as real + box.height as real / 2.0);
            && w / 2.0 * (1.0 + o.0) == cx && h / 2.0 * (1.0 + o.1) == cy
            && (InFrame(o.0) <==> 0.0 <= cx <= w) && (InFrame(o.1) <==> 0.0 <= cy <= h)
  {
    var (cx, cy) := (box.x as real + box.width as real / 2.0, box.y as real + box.height as real / 2.0);
    Scaled(cx, b.frameWidth as real / 2.0);
    Scaled(cy, b.frameHeight as real / 2.0);
  }

  lemma Scaled(x: real, half: real)
    requires half > 0.0
    ensures var o := (x - half) / half;
            half * (1.0 + o) == x && (InFrame(o) <==> 0.0 <= x <= half + half)
  {
    var o := (x - half) / half;
    assert o * half == x - half;
    if o < -1.0 {
      assert (o + 1.0) * half < 0.0;
    } else if o > 1.0 {
      assert (o - 1.0) * half > 0.0;
    } else {
      assert (o + 1.0) * half >= 0.0 && (1.0 - o) * half >= 0.0;
    }
  }

  /** The number of tracks that the turns brought. */
  function Arrived(turns: seq<Turn>): nat {
    if turns == [] then 0 else Arrived(turns[..|turns| - 1]) + |turns[|turns| - 1].arrivals|
  }

  lemma {:induction false} DrainCounts(cfg: Config, b: BusConfig, c: Cmdr, stats: Stats, batch: seq<Arrival>)
    requires b.frameWidth > 0 && b.frameHeight > 0
    ensures var s := Drain(cfg, b, c, stats, batch).1;
            && s.tracks == stats.tracks + |batch| && s.telemetry == stats.telemetry
            && s.suppressed <= stats.suppressed + |batch|
  {
    hide Update, SelectTarget, Offset;
    if batch != [] {
      DrainCounts(cfg, b, c, stats, batch[..|batch| - 1]);
    }
  }

  /** No track is lost: at every turn those handled and those still queued are all that
      arrived, and no more are reported suppressed than were handled. */
  lemma {:induction false} NoTrackIsLost(cfg: Config, b: BusConfig, c: Cmdr, turns: seq<Turn>)
    requires b.frameWidth > 0 && b.frameHeight > 0
    ensures var l := RunTurns(cfg, b, Loop(c, NO_STATS, []), turns);
            && l.stats.tracks + |l.queue| == Arrived(turns)
            && l.stats.suppressed <= l.stats.tracks
  {
    hide Drain, HandleExpiries;
    if turns != [] {
      var (front, turn) := (turns[..|turns| - 1], turns[|turns| - 1]);
      NoTrackIsLost(cfg, b, c, front);
      var l := RunTurns(cfg, b, Loop(c, NO_STATS, []), front);
      var queue := l.queue + turn.arrivals;
      var heard := if turn.telemetry then l.stats.(telemetry := l.stats.telemetry + 1) else l.stats;
      DrainCounts(cfg, b, l.c, heard, queue[..Min(|queue|, TRACK_BUDGET)]);
    }
  }

  // ---- What the loop does ----

  /** A watchdog that asks for an abort gets one, and one only, however many ask: the
      return-to-launch command goes out, and the commander ends in Idle without a target. If
      none asks, nothing is sent. */
  lemma WatchdogAborts(c: Cmdr, expired: seq<Action>, wait: nat, fcOk: bool)
    ensures var c' := HandleExpiries(c, expired, wait, fcOk);
            if AbortAction in expired
            then c'.log == c.log + [AbortRtl(c.clock + wait)] && c'.machine.state == Idle && c'.active == None
            else c'.log == c.log && c'.active == c.active
  {
    ExpireKeepsLog(c, expired);
  }

  /** A turn in which some watchdog asks for an abort ends with one, whatever tracks it had. */
  lemma TurnWithAbort(cfg: Config, b: BusConfig, l: Loop, turn: Turn)
    requires b.frameWidth > 0 && b.frameHeight > 0 && AbortAction in turn.expired
    ensures var c := TakeTurn(cfg, b, l, turn).c;
            c.log != [] && c.log[|c.log| - 1].AbortRtl? && c.machine.state == Idle && c.active == None
  {
    hide Drain, HandleExpiries;
    var queue := l.queue + turn.arrivals;
    var heard := if turn.telemetry then l.stats.(telemetry := l.stats.telemetry + 1) else l.stats;
    var drained := Drain(cfg, b, l.c, heard, queue[..Min(|queue|, TRACK_BUDGET)]).0;
    WatchdogAborts(drained, turn.expired, turn.wait, turn.fcOk);
  }

  /** A turn takes up the oldest 32 tracks, or all if there are fewer, and keeps the rest in
      order; it hears telemetry once at most. */
  lemma TurnTakesItsShare(cfg: Config, b: BusConfig, l: Loop, turn: Turn)
    requires b.frameWidth > 0 && b.frameHeight > 0
    ensures var (l', queue) := (TakeTurn(cfg, b, l, turn), l.queue + turn.arrivals);
            var n := if |queue| < 32 then |queue| else 32;
            && l'.queue == queue[n..] && l'.stats.tracks == l.stats.tracks + n
            && l'.stats.telemetry == l.stats.telemetry + if turn.telemetry then 1 else 0
  {
    hide Drain, HandleExpiries;
    var queue := l.queue + turn.arrivals;
    var heard := if turn.telemetry then l.stats.(telemetry := l.stats.telemetry + 1) else l.stats;
    DrainCounts(cfg, b, l.c, heard, queue[..Min(|queue|, TRACK_BUDGET)]);
  }

  /** The first track seen while scanning becomes the target. After that only fresh tracks of
      the target are acted on: a stale track, or another's, sends nothing and asks the guard
      nothing; a fresh one is a frame update with its offset. */
  lemma TracksActedOn(cfg: Config, b: BusConfig, c: Cmdr, stats: Stats, a: Arrival)
    requires b.frameWidth > 0 && b.frameHeight > 0
    ensures var c' := HandleTrack(cfg, b, c, stats, a).0;
            var begins := c.active.None? && c.machine.state == Scanning;
            var mine := begins || c.active == Some(a.track.trackId);
            var stale := a.track.misses > b.maxTrackMisses;
            && (begins && stale ==> c'.active == Some(a.track.trackId) && c'.machine.state == Tracking)
            && (stale || !mine ==> c'.log == c.log && c'.guard == c.guard && c'.limiter == c.limiter)
            && (!mine ==> c' == c)
            && (!stale && c.active == Some(a.track.trackId) ==>
                  c' == Update(cfg, c, Some(Offset(b, a.track.bbox)), a.env).0)
            && (!stale && begins ==>
                  c' == Update(cfg, SelectTarget(c, a.track.trackId).0, Some(Offset(b, a.track.bbox)), a.env).0)
  {
    hide Update, Offset;
    SelectOnlyFromScanning(c, a.track.trackId);
  }

  /** What the statistics count, for a commander whose limiter counts its commands: `sent` is the
      number of commands of the whole log, taken when an update sends one and reports success;
      `suppressed` counts the updates that report success and send nothing. */
  lemma StatsCount(cfg: Config, b: BusConfig, c: Cmdr, stats: Stats, a: Arrival)
    requires b.frameWidth > 0 && b.frameHeight > 0 && c.limiter.sent == |c.log|
    ensures var (c', stats') := HandleTrack(cfg, b, c, stats, a);
            && c'.limiter.sent == |c'.log| && stats'.tracks == stats.tracks + 1
            && (stats'.sent != stats.sent ==> |c'.log| > |c.log| && stats'.sent == |c'.log|)
            && (stats'.suppressed != stats.suppressed ==>
                  |c'.log| == |c.log| && stats'.suppressed == stats.suppressed + 1)
            && (|c'.log| > |c.log| && a.env.fcOk ==> stats'.sent == |c'.log|)
            && (|c'.log| > |c.log| && !a.env.fcOk ==> stats' == stats.(tracks := stats.tracks + 1))
            && (|c'.log| == |c.log| && a.track.misses <= b.maxTrackMisses && c.active == Some(a.track.trackId) ==>
                  stats'.suppressed == stats.suppressed + 1)
  {
    hide AntiLoop.Judge, Offset, YawTo, CommandFor;
  }

  /** A run that gets past connecting begins by scanning, without a target, and has sent
      nothing. */
  lemma BeginsByScanning(c: Cmdr, fcOk: bool)
    requires Connect(c, fcOk).1
    ensures var c' := Started(c, fcOk);
            c'.connected && c'.machine.state == Scanning && c'.active == None && c'.log == c.log
  {
  }
}
