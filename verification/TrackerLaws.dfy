/** Which track takes which detection, which detections become tracks, and which tracks go:
    the update told from its inputs, in both directions. */
module TrackerLaws {
  import opened Common
  import opened Boxes
  import opened Nms
  import opened Solve
  import opened Tracker

  /** A track that has been seen at this time is forgotten for its age alone. */
  predicate TooOld(cfg: Config, lastSeen: int, later: int) {
    later - lastSeen > cfg.maxTargetAgeMs
  }

  lemma LostExactly(cfg: Config, t: Track, later: int)
    ensures Lost(cfg, t, later) <==> t.missedFrames > cfg.maxMissedFrames || TooOld(cfg, t.lastSeen, later)
  {
  }

  /** An assigned pair is accepted if and only if its overlap reaches the threshold. */
  lemma AcceptedExactly(cfg: Config, s: State, op: Op, i: nat)
    requires op.Update? && s.tracks != map[] && op.detections != [] && Legal(s, op)
    requires i < |op.ids|
    ensures |op.assignment| == |op.ids| && op.ids[i] in s.tracks
    ensures op.assignment[i].Some? ==> op.assignment[i].value < |op.detections|
    ensures var (id, chosen) := (op.ids[i], Chosen(cfg, s, op));
            if op.assignment[i].Some?
               && Iou(s.tracks[id].lastBbox, op.detections[op.assignment[i].value].bbox) >= cfg.matchIouThreshold
            then id in chosen && chosen[id] == op.assignment[i].value
            else id !in chosen
  {
    hide Iou;
    var c := Costs(s.tracks, op.ids, op.detections);
    AcceptedIs(c, op.ids, op.assignment, cfg.matchIouThreshold, |op.ids|, i);
  }

  /** Row i's pair reaches the threshold. */
  ghost predicate Reaches(cfg: Config, s: State, op: Op, i: nat)
    requires op.Update? && i < |op.ids| == |op.assignment| && op.ids[i] in s.tracks
    requires op.assignment[i].Some? ==> op.assignment[i].value < |op.detections|
  {
    && op.assignment[i].Some?
    && Iou(s.tracks[op.ids[i]].lastBbox, op.detections[op.assignment[i].value].bbox) >= cfg.matchIouThreshold
  }

  /** What happens to each old track when there are detections: with a pair that reaches the
      threshold it takes that detection, with its box, confidence and time, one confirmation
      more and no misses, and is forgotten for its age alone; without one it keeps what it had,
      is one frame older, and is forgotten for its misses or its age. */
  lemma OldTracksExactly(cfg: Config, s: State, op: Op, i: nat)
    requires Valid(s) && op.Update? && s.tracks != map[] && op.detections != [] && Legal(s, op)
    requires i < |op.ids|
    ensures |op.assignment| == |op.ids| && op.ids[i] in s.tracks
    ensures op.assignment[i].Some? ==> op.assignment[i].value < |op.detections|
    ensures var (id, r) := (op.ids[i], Effect(cfg, s, op));
            var t := s.tracks[id];
            if Reaches(cfg, s, op, i)
            then var j := op.assignment[i].value;
                 var d := op.detections[j];
                 && (id in r.tracks <==> !TooOld(cfg, op.now(j), op.later(id)))
                 && (id in r.tracks ==>
                       r.tracks[id] == Track(id, d.bbox, d.confidence, op.now(j), 0, Min(t.confirmations + 1, U32_MAX)))
            else var missed := Min(t.missedFrames + 1, U32_MAX);
                 && (id in r.tracks <==>
                     missed <= cfg.maxMissedFrames && !TooOld(cfg, t.lastSeen, op.later(id)))
                 && (id in r.tracks ==> r.tracks[id] == t.(missedFrames := missed))
  {
    hide Iou, Effect, Legal;
    AcceptedExactly(cfg, s, op, i);
    OldTracks(cfg, s, op, op.ids[i]);
  }

  /** The operator's calls: one track more, under the next id, made from the detection alone;
      one fewer; none; and no other track touched. */
  lemma OperatorsCalls(cfg: Config, s: State, d: Detection, at: int, id: nat)
    requires Valid(s)
    ensures var r := Effect(cfg, s, Create(d, at));
            && s.nextId !in s.tracks && r.nextId == s.nextId + 1 && s.nextId in r.tracks
            && r.tracks[s.nextId] == Track(s.nextId, d.bbox, d.confidence, at, 0, 1)
            && (id != s.nextId ==> (id in r.tracks <==> id in s.tracks))
            && (id != s.nextId && id in s.tracks ==> r.tracks[id] == s.tracks[id])
    ensures var r := Effect(cfg, s, Remove(id));
            && r.nextId == s.nextId && id !in r.tracks
            && forall other | other != id ::
                 && (other in r.tracks <==> other in s.tracks)
                 && (other in s.tracks ==> r.tracks[other] == s.tracks[other])
    ensures Effect(cfg, s, Clear) == State(map[], s.nextId)
  {
  }

  /** Without detections every track is one frame older, and nothing else happens. */
  lemma NoDetections(cfg: Config, s: State, op: Op, id: nat)
    requires Valid(s) && op.Update? && op.detections == []
    ensures var r := Effect(cfg, s, op);
            && r.nextId == s.nextId && (id in r.tracks ==> id in s.tracks)
            && (id in s.tracks ==>
                  var (t, missed) := (s.tracks[id], Min(s.tracks[id].missedFrames + 1, U32_MAX));
                  && (id in r.tracks <==>
                      missed <= cfg.maxMissedFrames && !TooOld(cfg, t.lastSeen, op.later(id)))
                  && (id in r.tracks ==> r.tracks[id] == t.(missedFrames := missed)))
  {
  }

  // ---- New tracks ----

  /** The detections below n that are not taken, in order. */
  function Untaken(taken: set<nat>, n: nat): seq<nat> {
    if n == 0 then []
    else if n - 1 in taken then Untaken(taken, n - 1)
    else Untaken(taken, n - 1) + [n - 1]
  }

  lemma {:induction false} UntakenBelow(taken: set<nat>, n: nat)
    ensures forall k | 0 <= k < |Untaken(taken, n)| :: Untaken(taken, n)[k] < n && Untaken(taken, n)[k] !in taken
    ensures forall j: nat | j < n && j !in taken :: j in Untaken(taken, n)
  {
    if n > 0 {
      UntakenBelow(taken, n - 1);
    }
  }

  /** How many there is room for. */
  function Room(have: nat, maxTracks: nat, wanted: nat): nat {
    if have >= maxTracks then 0 else Min(maxTracks - have, wanted)
  }

  /** The k-th new track comes from the k-th free detection. */
  ghost predicate MadeInOrder(s: State, r: State, detections: seq<Detection>, free: seq<nat>, now: Clock, k: nat)
    requires k < |free|
  {
    && free[k] < |detections| && s.nextId + k in r.tracks
    && r.tracks[s.nextId + k] == NewTrack(s.nextId + k, detections[free[k]], now(free[k]))
  }

  /** Every detection that is not taken becomes a track, in order, while there is room, under
      consecutive ids. */
  lemma {:induction false} CreatedExactly(s: State, detections: seq<Detection>, taken: set<nat>, n: nat,
                                          maxTracks: nat, now: Clock)
    requires n <= |detections| && Valid(s)
    ensures var r := CreateTracks(s, detections, taken, n, maxTracks, now);
            var (free, m) := (Untaken(taken, n), Room(|s.tracks|, maxTracks, |Untaken(taken, n)|));
            && r.nextId == s.nextId + m && |r.tracks| == |s.tracks| + m
            && forall k | 0 <= k < m :: MadeInOrder(s, r, detections, free, now, k)
  {
    hide CreateTracks, NewTrack, Valid, MadeInOrder;
    CreateTracksStep(s, detections, taken, n, maxTracks, now);
    if n > 0 {
      CreatedExactly(s, detections, taken, n - 1, maxTracks, now);
      CreateTracksCounts(s, detections, taken, n - 1, maxTracks, now);
      CreateTracksCounts(s, detections, taken, n, maxTracks, now);
      var (before, r) := (CreateTracks(s, detections, taken, n - 1, maxTracks, now),
                          CreateTracks(s, detections, taken, n, maxTracks, now));
      var (free', free) := (Untaken(taken, n - 1), Untaken(taken, n));
      var (m', m) := (Room(|s.tracks|, maxTracks, |free'|), Room(|s.tracks|, maxTracks, |free|));
      forall k | 0 <= k < m ensures MadeInOrder(s, r, detections, free, now, k) {
        if k < m' {
          assert MadeInOrder(s, before, detections, free', now, k);
          OrderStays(s, before, r, detections, free', free, now, k);
        } else {
          LastMade(s, before, r, detections, free, now, k, n);
        }
      }
    }
  }

  lemma OrderStays(s: State, before: State, r: State, detections: seq<Detection>, free: seq<nat>, longer: seq<nat>,
                   now: Clock, k: nat)
    requires k < |free| && free <= longer && MadeInOrder(s, before, detections, free, now, k)
    requires forall id | id in before.tracks && id != before.nextId ::
               id in r.tracks && r.tracks[id] == before.tracks[id]
    requires s.nextId + k < before.nextId
    ensures MadeInOrder(s, r, detections, longer, now, k)
  {
  }

  lemma LastMade(s: State, before: State, r: State, detections: seq<Detection>, free: seq<nat>, now: Clock, k: nat,
                 n: nat)
    requires 0 < n <= |detections| && k < |free| && free[k] == n - 1 && s.nextId + k == before.nextId
    requires r == CreateOne(before, detections[n - 1], now(n - 1))
    ensures MadeInOrder(s, r, detections, free, now, k)
  {
  }

  /** The detections that some pair reaching the threshold has taken. */
  ghost function Taken(cfg: Config, s: State, op: Op): set<nat>
    requires op.Update? && Legal(s, op)
  {
    if s.tracks == map[] || op.detections == [] then {} else Values(Chosen(cfg, s, op))
  }

  lemma TakenExactly(cfg: Config, s: State, op: Op, j: nat)
    requires op.Update? && s.tracks != map[] && op.detections != [] && Legal(s, op)
    ensures |op.assignment| == |op.ids|
    ensures forall i | 0 <= i < |op.ids| ::
              op.ids[i] in s.tracks && (op.assignment[i].Some? ==> op.assignment[i].value < |op.detections|)
    ensures j in Taken(cfg, s, op) <==>
            exists i :: 0 <= i < |op.ids| && op.assignment[i] == Some(j) && Reaches(cfg, s, op, i)
  {
    hide Iou;
    forall i | 0 <= i < |op.ids|
      ensures op.ids[i] in s.tracks && (op.assignment[i].Some? ==> op.assignment[i].value < |op.detections|)
      ensures op.assignment[i] == Some(j) && Reaches(cfg, s, op, i) ==> j in Taken(cfg, s, op)
    {
      AcceptedExactly(cfg, s, op, i);
    }
    if j in Taken(cfg, s, op) {
      var id :| id in Chosen(cfg, s, op) && Chosen(cfg, s, op)[id] == j;
      ChosenPairs(cfg, s, op, id);
      var i :| 0 <= i < |op.ids| && op.ids[i] == id && op.assignment[i] == Some(j);
      AcceptedExactly(cfg, s, op, i);
    }
  }

  /** The tracks of an update before the lost ones are removed. */
  ghost function Filled(cfg: Config, s: State, op: Op): State
    requires op.Update? && Legal(s, op)
  {
    var associated :=
      if s.tracks == map[] || op.detections == [] then s
      else s.(tracks := Associate(s.tracks, Chosen(cfg, s, op), op.detections, op.now));
    if cfg.autoCreate
    then CreateTracks(associated, op.detections, Taken(cfg, s, op), |op.detections|, cfg.maxTracks, op.now)
    else associated
  }

  /** New tracks of an update, before removal. */
  lemma FilledExactly(cfg: Config, s: State, op: Op)
    requires Valid(s) && op.Update? && Legal(s, op)
    ensures var r := Filled(cfg, s, op);
            var free := Untaken(Taken(cfg, s, op), |op.detections|);
            var m := if cfg.autoCreate then Room(|s.tracks|, cfg.maxTracks, |free|) else 0;
            && r.nextId == s.nextId + m && m <= |free|
            && forall k | 0 <= k < m :: MadeInOrder(s, r, op.detections, free, op.now, k)
  {
    hide NewTrack, Iou, Chosen, Valid, CreateTracks, Untaken, Legal, Values;
    if s.tracks != map[] && op.detections != [] {
      AssociateKeeps(s.tracks, Chosen(cfg, s, op), op.detections, op.now);
      AssociatedIsValid(s, Chosen(cfg, s, op), op.detections, op.now);
      var associated := s.(tracks := Associate(s.tracks, Chosen(cfg, s, op), op.detections, op.now));
      if cfg.autoCreate {
        CreatedExactly(associated, op.detections, Taken(cfg, s, op), |op.detections|, cfg.maxTracks, op.now);
        var free := Untaken(Taken(cfg, s, op), |op.detections|);
        SameOrder(s, associated, Filled(cfg, s, op), op.detections, free, op.now);
      }
    } else if cfg.autoCreate {
      CreatedExactly(s, op.detections, {}, |op.detections|, cfg.maxTracks, op.now);
    }
  }

  lemma SameOrder(s: State, t: State, r: State, detections: seq<Detection>, free: seq<nat>, now: Clock)
    requires s.nextId == t.nextId
    ensures forall k | 0 <= k < |free| ::
              MadeInOrder(t, r, detections, free, now, k) <==> MadeInOrder(s, r, detections, free, now, k)
  {
  }

  /** Removal is all that is left; with no tracks to begin with there is none. */
  lemma EffectIsFilled(cfg: Config, s: State, op: Op)
    requires op.Update? && Legal(s, op)
    ensures var (r, f) := (Effect(cfg, s, op), Filled(cfg, s, op));
            && r.nextId == f.nextId
            && (s.tracks == map[] ==> r == f)
            && (s.tracks != map[] && op.detections != [] ==> r.tracks == RemoveLost(cfg, f.tracks, op.later))
            && (op.detections == [] ==> f == s)
  {
    hide Chosen, Associate, Legal, Lost;
    if op.detections == [] && cfg.autoCreate {
      CreateTracksStep(s, [], Taken(cfg, s, op), 0, cfg.maxTracks, op.now);
    }
  }

  /** The tracks an update adds: when tracks are created automatically, every detection that
      no pair took, in order, while there is room, under the next ids; each is kept unless it
      is too old by the end of the same update, for which only the clock can be blamed. */
  lemma NewTracksExactly(cfg: Config, s: State, op: Op, k: nat)
    requires Valid(s) && op.Update? && Legal(s, op)
    ensures var r := Effect(cfg, s, op);
            var free := Untaken(Taken(cfg, s, op), |op.detections|);
            var m := if cfg.autoCreate then Room(|s.tracks|, cfg.maxTracks, |free|) else 0;
            && r.nextId == s.nextId + m && m <= |free|
            && (k < m ==>
                  var (id, j) := (s.nextId + k, free[k]);
                  && j < |op.detections|
                  && var t := Track(id, op.detections[j].bbox, op.detections[j].confidence, op.now(j), 0, 1);
                     && (id in r.tracks <==> s.tracks == map[] || !TooOld(cfg, op.now(j), op.later(id)))
                     && (id in r.tracks ==> r.tracks[id] == t))
  {
    hide Iou, Chosen, Valid, CreateTracks, Untaken, Legal, Values, Filled, Effect, Taken;
    FilledExactly(cfg, s, op);
    EffectIsFilled(cfg, s, op);
    NothingFree(Taken(cfg, s, op));
    var (f, free) := (Filled(cfg, s, op), Untaken(Taken(cfg, s, op), |op.detections|));
    if cfg.autoCreate && k < Room(|s.tracks|, cfg.maxTracks, |free|) {
      assert MadeInOrder(s, f, op.detections, free, op.now, k);
      LostExactly(cfg, f.tracks[s.nextId + k], op.later(s.nextId + k));
    }
  }

  lemma NothingFree(taken: set<nat>)
    ensures Untaken(taken, 0) == []
  {
  }

  lemma AssociatedIsValid(s: State, chosen: map<nat, nat>, detections: seq<Detection>, now: Clock)
    requires Valid(s) && forall id | id in chosen :: chosen[id] < |detections|
    ensures Valid(s.(tracks := Associate(s.tracks, chosen, detections, now)))
  {
  }
}
