/** The multi-target tracker: detections are given to tracks by optimal assignment,
    and tracks come, age and go. */
module Tracker {
  import opened Common
  import opened Assignment
  import opened Boxes
  import opened Nms
  import opened Solve

  const U32_MAX: nat := 0xFFFF_FFFF

  datatype Track = Track(
    id: nat,
    lastBbox: BoundingBox,
    confidence: real,
    lastSeen: int,
    missedFrames: nat,
    confirmations: nat)

  datatype Config = Config(
    maxTargetAgeMs: nat,
    maxMissedFrames: nat,
    matchIouThreshold: real,
    autoCreate: bool,
    maxTracks: nat)

  function SaturatingNext(n: nat): nat {
    if n >= U32_MAX then U32_MAX else n + 1
  }

  function NewTrack(id: nat, d: Detection, now: int): Track {
    Track(id, d.bbox, d.confidence, now, 0, 1)
  }

  function UpdateWithDetection(t: Track, d: Detection, now: int): Track {
    t.(lastBbox := d.bbox, confidence := d.confidence, lastSeen := now, missedFrames := 0,
       confirmations := SaturatingNext(t.confirmations))
  }

  function PredictOnly(t: Track): Track {
    t.(missedFrames := SaturatingNext(t.missedFrames))
  }

  /** The tracks and the next fresh id. */
  datatype State = State(tracks: map<nat, Track>, nextId: nat)

  /** Readings of the clock, one for each detection or track. */
  type Clock = nat -> int

  /** A call, with what its inputs do not settle: the clock when each detection is taken up
      and when each track is looked at for removal, the order in which the hash map lists its
      keys, and which optimal assignment is found. */
  datatype Op =
    | Update(detections: seq<Detection>, now: Clock, later: Clock, ids: seq<nat>, assignment: Partial)
    | Create(detection: Detection, at: int)
    | Remove(id: nat)
    | Clear

  function Costs(tracks: map<nat, Track>, ids: seq<nat>, detections: seq<Detection>): (c: Matrix)
    requires forall i | 0 <= i < |ids| :: ids[i] in tracks
    ensures |c| == |ids| && Rectangular(c)
    ensures c != [] ==> Width(c) == |detections|
    ensures forall i, j | 0 <= i < |ids| && 0 <= j < |detections| ::
              |c[i]| == |detections| && c[i][j] == 1.0 - Iou(tracks[ids[i]].lastBbox, detections[j].bbox)
  {
    seq(|ids|, i requires 0 <= i < |ids| => CostRow(tracks[ids[i]], detections))
  }

  function CostRow(t: Track, detections: seq<Detection>): (row: seq<real>)
    ensures |row| == |detections|
    ensures forall j | 0 <= j < |detections| :: row[j] == 1.0 - Iou(t.lastBbox, detections[j].bbox)
  {
    seq(|detections|, j requires 0 <= j < |detections| => 1.0 - Iou(t.lastBbox, detections[j].bbox))
  }

  ghost predicate Enumerates(ids: seq<nat>, keys: set<nat>) {
    Distinct(ids) && forall id :: id in ids <==> id in keys
  }

  ghost predicate Legal(s: State, op: Op) {
    op.Update? && s.tracks != map[] && op.detections != [] ==>
      && Enumerates(op.ids, s.tracks.Keys)
      && OptimalPartial(Costs(s.tracks, op.ids, op.detections), op.assignment)
  }

  /** Row i has a column, and the overlap there reaches the threshold. */
  predicate AcceptedAt(c: Matrix, assignment: Partial, threshold: real, i: nat)
    requires |assignment| == |c| && i < |c|
    requires assignment[i].Some? ==> assignment[i].value < |c[i]|
  {
    assignment[i].Some? && 1.0 - c[i][assignment[i].value] >= threshold
  }

  /** The accepted pairs among the first n rows, as a map from track id to detection. */
  function Accepted(c: Matrix, ids: seq<nat>, assignment: Partial, threshold: real, n: nat): map<nat, nat>
    requires |assignment| == |c| == |ids| && n <= |ids|
    requires forall i | 0 <= i < |c| && assignment[i].Some? :: assignment[i].value < |c[i]|
  {
    if n == 0 then map[]
    else
      var before := Accepted(c, ids, assignment, threshold, n - 1);
      if AcceptedAt(c, assignment, threshold, n - 1) then before[ids[n - 1] := assignment[n - 1].value] else before
  }

  /** Every track takes its accepted detection or is aged. */
  function Associate(tracks: map<nat, Track>, chosen: map<nat, nat>, detections: seq<Detection>, now: Clock)
    : map<nat, Track>
    requires forall id | id in chosen :: chosen[id] < |detections|
  {
    map id | id in tracks ::
      if id in chosen then UpdateWithDetection(tracks[id], detections[chosen[id]], now(chosen[id]))
      else PredictOnly(tracks[id])
  }

  /** New tracks for the first n detections that are not taken, up to the ceiling. */
  function CreateTracks(s: State, detections: seq<Detection>, taken: set<nat>, n: nat, maxTracks: nat, now: Clock)
    : State
    requires n <= |detections|
  {
    if n == 0 then s
    else
      var before := CreateTracks(s, detections, taken, n - 1, maxTracks, now);
      if n - 1 in taken || |before.tracks| >= maxTracks then before
      else CreateOne(before, detections[n - 1], now(n - 1))
  }

  function CreateOne(s: State, d: Detection, now: int): State {
    State(s.tracks[s.nextId := NewTrack(s.nextId, d, now)], s.nextId + 1)
  }

  predicate Lost(cfg: Config, t: Track, later: int) {
    var age := if later < t.lastSeen then 0 else later - t.lastSeen;
    t.missedFrames > cfg.maxMissedFrames || age > cfg.maxTargetAgeMs
  }

  function RemoveLost(cfg: Config, tracks: map<nat, Track>, later: Clock): map<nat, Track> {
    map id | id in tracks && !Lost(cfg, tracks[id], later(id)) :: tracks[id]
  }

  function Values(m: map<nat, nat>): set<nat> {
    set id | id in m :: m[id]
  }

  /** The pairs a matching update accepts. */
  ghost function Chosen(cfg: Config, s: State, op: Op): (chosen: map<nat, nat>)
    requires op.Update? && s.tracks != map[] && op.detections != [] && Legal(s, op)
    ensures forall id | id in chosen :: chosen[id] < |op.detections|
  {
    var c := Costs(s.tracks, op.ids, op.detections);
    AcceptedInRange(c, op.ids, op.assignment, cfg.matchIouThreshold, |op.ids|, |op.detections|);
    Accepted(c, op.ids, op.assignment, cfg.matchIouThreshold, |op.ids|)
  }

  ghost function Effect(cfg: Config, s: State, op: Op): State
    requires Legal(s, op)
  {
    match op
    case Create(d, now) => CreateOne(s, d, now)
    case Remove(id) => s.(tracks := s.tracks - {id})
    case Clear => s.(tracks := map[])
    case Update(detections, now, later, ids, assignment) =>
      if s.tracks == map[] then
        (if cfg.autoCreate then CreateTracks(s, detections, {}, |detections|, cfg.maxTracks, now) else s)
      else
        var matched :=
          if detections == [] then s.(tracks := Associate(s.tracks, map[], detections, now))
          else
            var chosen := Chosen(cfg, s, op);
            var associated := s.(tracks := Associate(s.tracks, chosen, detections, now));
            if cfg.autoCreate then
              CreateTracks(associated, detections, Values(chosen), |detections|, cfg.maxTracks, now)
            else associated;
        matched.(tracks := RemoveLost(cfg, matched.tracks, later))
  }

  lemma {:induction false} AcceptedInRange(c: Matrix, ids: seq<nat>, assignment: Partial, threshold: real,
                                           n: nat, m: nat)
    requires |assignment| == |c| == |ids| && n <= |ids|
    requires forall i | 0 <= i < |c| && assignment[i].Some? :: assignment[i].value < m <= |c[i]|
    ensures forall id | id in Accepted(c, ids, assignment, threshold, n) ::
              Accepted(c, ids, assignment, threshold, n)[id] < m
  {
    if n > 0 {
      AcceptedInRange(c, ids, assignment, threshold, n - 1, m);
    }
  }

  /** The accepted map, row by row. */
  lemma {:induction false} AcceptedIs(c: Matrix, ids: seq<nat>, assignment: Partial, threshold: real, n: nat, i: nat)
    requires |assignment| == |c| == |ids| && n <= |ids| && i < |ids| && Distinct(ids)
    requires forall i | 0 <= i < |c| && assignment[i].Some? :: assignment[i].value < |c[i]|
    ensures var m := Accepted(c, ids, assignment, threshold, n);
            if i < n && AcceptedAt(c, assignment, threshold, i)
            then ids[i] in m && m[ids[i]] == assignment[i].value
            else ids[i] !in m
  {
    if n > 0 {
      AcceptedIs(c, ids, assignment, threshold, n - 1, i);
    }
  }

  lemma {:induction false} AcceptedKeys(c: Matrix, ids: seq<nat>, assignment: Partial, threshold: real, n: nat)
    requires |assignment| == |c| == |ids| && n <= |ids|
    requires forall i | 0 <= i < |c| && assignment[i].Some? :: assignment[i].value < |c[i]|
    ensures forall id | id in Accepted(c, ids, assignment, threshold, n) :: id in ids
  {
    if n > 0 {
      AcceptedKeys(c, ids, assignment, threshold, n - 1);
    }
  }

  /** Accepted pairs are part of an optimal assignment: each joins a known track with its
      own detection, their overlap reaches the threshold, and no detection is given twice. */
  lemma ChosenPairs(cfg: Config, s: State, op: Op, id: nat)
    requires op.Update? && s.tracks != map[] && op.detections != [] && Legal(s, op)
    requires id in Chosen(cfg, s, op)
    ensures var chosen := Chosen(cfg, s, op);
            && id in s.tracks
            && Iou(s.tracks[id].lastBbox, op.detections[chosen[id]].bbox) >= cfg.matchIouThreshold
            && (forall other | other in chosen && other != id :: chosen[other] != chosen[id])
            && (exists i :: 0 <= i < |op.ids| && op.ids[i] == id && op.assignment[i] == Some(chosen[id]))
  {
    hide Iou, Costs, OptimalPartial, Accepted;
    var c := Costs(s.tracks, op.ids, op.detections);
    AssignedInRange(s, op);
    AcceptedKeys(c, op.ids, op.assignment, cfg.matchIouThreshold, |op.ids|);
    var i :| 0 <= i < |op.ids| && op.ids[i] == id;
    AcceptedIs(c, op.ids, op.assignment, cfg.matchIouThreshold, |op.ids|, i);
    forall other | other in Chosen(cfg, s, op) && other != id
      ensures Chosen(cfg, s, op)[other] != Chosen(cfg, s, op)[id]
    {
      var j :| 0 <= j < |op.ids| && op.ids[j] == other;
      AcceptedIs(c, op.ids, op.assignment, cfg.matchIouThreshold, |op.ids|, j);
    }
  }

  /** The assignment names detections, no two rows the same. */
  lemma AssignedInRange(s: State, op: Op)
    requires op.Update? && s.tracks != map[] && op.detections != [] && Legal(s, op)
    ensures var c := Costs(s.tracks, op.ids, op.detections);
            && |op.assignment| == |op.ids| == |c| && Distinct(op.ids)
            && (forall i | 0 <= i < |c| && op.assignment[i].Some? ::
                  op.assignment[i].value < |op.detections| == |c[i]|)
            && (forall i, j | 0 <= i < j < |c| && op.assignment[i].Some? && op.assignment[j].Some? ::
                  op.assignment[i].value != op.assignment[j].value)
  {
    hide Iou;
  }

  // ---- What every call keeps ----

  /** Ids in use are below the next one, and every track knows its own. */
  predicate Valid(s: State) {
    forall id | id in s.tracks :: id < s.nextId && s.tracks[id].id == id
  }

  lemma {:induction false} CreateTracksCounts(s: State, detections: seq<Detection>, taken: set<nat>, n: nat,
                                                 maxTracks: nat, now: Clock)
    requires n <= |detections| && Valid(s)
    ensures var r := CreateTracks(s, detections, taken, n, maxTracks, now);
            && Valid(r) && s.nextId <= r.nextId
            && |r.tracks| == |s.tracks| + (r.nextId - s.nextId)
            && |r.tracks| <= Max(|s.tracks|, maxTracks)
  {
    if n > 0 {
      CreateTracksCounts(s, detections, taken, n - 1, maxTracks, now);
    }
  }

  /** The track with this id was made from one of the first n detections, one not taken. */
  ghost predicate MadeFrom(t: Track, id: nat, detections: seq<Detection>, taken: set<nat>, n: nat, now: Clock) {
    exists j: nat :: j < n && j < |detections| && j !in taken && t == NewTrack(id, detections[j], now(j))
  }

  lemma {:induction false} OldTracksStay(s: State, detections: seq<Detection>, taken: set<nat>, n: nat,
                                         maxTracks: nat, now: Clock)
    requires n <= |detections| && Valid(s)
    ensures var r := CreateTracks(s, detections, taken, n, maxTracks, now);
            forall id | id in s.tracks :: id in r.tracks && r.tracks[id] == s.tracks[id]
  {
    hide NewTrack;
    if n > 0 {
      CreateTracksCounts(s, detections, taken, n - 1, maxTracks, now);
      OldTracksStay(s, detections, taken, n - 1, maxTracks, now);
    }
  }

  lemma {:induction false} CreatedIs(s: State, detections: seq<Detection>, taken: set<nat>, n: nat,
                                     maxTracks: nat, now: Clock, id: nat)
    requires n <= |detections| && Valid(s) && id !in s.tracks
    ensures var r := CreateTracks(s, detections, taken, n, maxTracks, now);
            id in r.tracks ==>
              s.nextId <= id < r.nextId && MadeFrom(r.tracks[id], id, detections, taken, n, now)
  {
    hide NewTrack, MadeFrom, CreateTracks, Valid;
    CreateTracksStep(s, detections, taken, n, maxTracks, now);
    if n > 0 {
      CreateTracksCounts(s, detections, taken, n - 1, maxTracks, now);
      CreatedIs(s, detections, taken, n - 1, maxTracks, now, id);
      var before := CreateTracks(s, detections, taken, n - 1, maxTracks, now);
      if id in before.tracks {
        MadeFromMore(before.tracks[id], id, detections, taken, n - 1, now);
      }
      if n - 1 !in taken {
        MadeFromLast(before.nextId, detections, taken, n, now);
      }
    }
  }

  lemma CreateTracksStep(s: State, detections: seq<Detection>, taken: set<nat>, n: nat, maxTracks: nat, now: Clock)
    requires n <= |detections|
    ensures n == 0 ==> CreateTracks(s, detections, taken, n, maxTracks, now) == s
    ensures n > 0 ==>
              var before := CreateTracks(s, detections, taken, n - 1, maxTracks, now);
              CreateTracks(s, detections, taken, n, maxTracks, now) ==
              if n - 1 in taken || |before.tracks| >= maxTracks then before
              else CreateOne(before, detections[n - 1], now(n - 1))
  {
    hide CreateOne;
  }

  lemma MadeFromMore(t: Track, id: nat, detections: seq<Detection>, taken: set<nat>, n: nat, now: Clock)
    requires MadeFrom(t, id, detections, taken, n, now)
    ensures MadeFrom(t, id, detections, taken, n + 1, now)
  {
  }

  lemma MadeFromLast(id: nat, detections: seq<Detection>, taken: set<nat>, n: nat, now: Clock)
    requires 1 <= n <= |detections| && n - 1 !in taken
    ensures MadeFrom(NewTrack(id, detections[n - 1], now(n - 1)), id, detections, taken, n, now)
  {
    var j: nat := n - 1;
    assert j < n && j < |detections| && j !in taken;
  }

  lemma CreateTracksIs(s: State, detections: seq<Detection>, taken: set<nat>, n: nat, maxTracks: nat, now: Clock)
    requires n <= |detections| && Valid(s)
    ensures var r := CreateTracks(s, detections, taken, n, maxTracks, now);
            && (forall id | id in s.tracks :: id in r.tracks && r.tracks[id] == s.tracks[id])
            && (forall id | id in r.tracks && id !in s.tracks ::
                  s.nextId <= id < r.nextId && MadeFrom(r.tracks[id], id, detections, taken, n, now))
  {
    hide CreateTracks, MadeFrom, Valid;
    OldTracksStay(s, detections, taken, n, maxTracks, now);
    forall id | id in CreateTracks(s, detections, taken, n, maxTracks, now).tracks && id !in s.tracks
      ensures var r := CreateTracks(s, detections, taken, n, maxTracks, now);
              s.nextId <= id < r.nextId && MadeFrom(r.tracks[id], id, detections, taken, n, now)
    {
      CreatedIs(s, detections, taken, n, maxTracks, now, id);
    }
  }

  lemma RemoveLostShrinks(cfg: Config, tracks: map<nat, Track>, later: Clock)
    ensures |RemoveLost(cfg, tracks, later)| <= |tracks|
  {
    var r := RemoveLost(cfg, tracks, later);
    assert r.Keys <= tracks.Keys;
    SubsetSize(r.Keys, tracks.Keys);
  }

  lemma AssociateKeeps(tracks: map<nat, Track>, chosen: map<nat, nat>, detections: seq<Detection>, now: Clock)
    requires forall id | id in chosen :: chosen[id] < |detections|
    ensures |Associate(tracks, chosen, detections, now)| == |tracks|
    ensures Associate(tracks, chosen, detections, now).Keys == tracks.Keys
  {
    var r := Associate(tracks, chosen, detections, now);
    assert r.Keys == tracks.Keys;
    assert |r| == |r.Keys| && |tracks| == |tracks.Keys|;
  }

  /** One call: validity is kept, ids only go up, an id that appears is fresh, and an
      update never takes the number of tracks past the ceiling. */
  lemma EffectKeeps(cfg: Config, s: State, op: Op)
    requires Valid(s) && Legal(s, op)
    ensures var r := Effect(cfg, s, op);
            && Valid(r) && s.nextId <= r.nextId
            && (forall id | id in r.tracks && id !in s.tracks :: s.nextId <= id < r.nextId)
            && (op.Update? ==> |r.tracks| <= Max(|s.tracks|, cfg.maxTracks))
  {
    if op.Update? && s.tracks == map[] {
      CreateTracksCounts(s, op.detections, {}, |op.detections|, cfg.maxTracks, op.now);
      CreateTracksIs(s, op.detections, {}, |op.detections|, cfg.maxTracks, op.now);
    } else if op.Update? {
      var chosen := if op.detections == [] then map[] else Chosen(cfg, s, op);
      var associated := s.(tracks := Associate(s.tracks, chosen, op.detections, op.now));
      AssociateKeeps(s.tracks, chosen, op.detections, op.now);
      var full := associated;
      if op.detections != [] && cfg.autoCreate {
        CreateTracksCounts(associated, op.detections, Values(chosen), |op.detections|, cfg.maxTracks, op.now);
        CreateTracksIs(associated, op.detections, Values(chosen), |op.detections|, cfg.maxTracks, op.now);
        full := CreateTracks(associated, op.detections, Values(chosen), |op.detections|, cfg.maxTracks, op.now);
      }
      RemoveLostShrinks(cfg, full.tracks, op.later);
    }
  }

  /** What an update does to a track that was there before: it survives exactly when what
      it has become is not lost, and it has become its detection's or one frame older. */
  lemma OldTracks(cfg: Config, s: State, op: Op, id: nat)
    requires Valid(s) && op.Update? && Legal(s, op) && id in s.tracks
    ensures var r := Effect(cfg, s, op);
            var (before, matched) := (s.tracks[id], op.detections != [] && id in Chosen(cfg, s, op));
            var j := if matched then Chosen(cfg, s, op)[id] else 0;
            var t := if matched then UpdateWithDetection(before, op.detections[j], op.now(j)) else PredictOnly(before);
            && (id in r.tracks <==> !Lost(cfg, t, op.later(id)))
            && (id in r.tracks ==> r.tracks[id] == t && t.missedFrames <= cfg.maxMissedFrames)
            && t.id == id
            && (if matched
                then t.missedFrames == 0 && t.lastSeen == op.now(j)
                     && t.lastBbox == op.detections[j].bbox && t.confidence == op.detections[j].confidence
                else t.missedFrames == Min(before.missedFrames + 1, U32_MAX) && t.lastSeen == before.lastSeen
                     && t.lastBbox == before.lastBbox && t.confidence == before.confidence)
  {
    assert s.tracks != map[];
    if op.detections != [] && cfg.autoCreate {
      var chosen := Chosen(cfg, s, op);
      var associated := s.(tracks := Associate(s.tracks, chosen, op.detections, op.now));
      hide NewTrack, Iou, Chosen;
      CreateTracksIs(associated, op.detections, Values(chosen), |op.detections|, cfg.maxTracks, op.now);
    }
  }

  /** A track that an update adds starts from a detection no track has taken, and only
      if tracks are created automatically. */
  lemma NewTracks(cfg: Config, s: State, op: Op, id: nat)
    requires Valid(s) && op.Update? && Legal(s, op)
    requires id !in s.tracks && id in Effect(cfg, s, op).tracks
    ensures cfg.autoCreate && s.nextId <= id
    ensures var taken := if s.tracks == map[] || op.detections == [] then {} else Values(Chosen(cfg, s, op));
            MadeFrom(Effect(cfg, s, op).tracks[id], id, op.detections, taken, |op.detections|, op.now)
  {
    if s.tracks == map[] {
      CreateTracksIs(s, op.detections, {}, |op.detections|, cfg.maxTracks, op.now);
    } else if op.detections != [] {
      var chosen := Chosen(cfg, s, op);
      var associated := s.(tracks := Associate(s.tracks, chosen, op.detections, op.now));
      CreateTracksIs(associated, op.detections, Values(chosen), |op.detections|, cfg.maxTracks, op.now);
    }
  }

  // ---- Whole runs ----

  ghost predicate IsRun(cfg: Config, states: seq<State>, ops: seq<Op>) {
    && |states| == |ops| + 1
    && states[0] == State(map[], 1)
    && forall i | 0 <= i < |ops| :: Legal(states[i], ops[i]) && states[i + 1] == Effect(cfg, states[i], ops[i])
  }

  lemma {:induction false} RunKeepsValid(cfg: Config, states: seq<State>, ops: seq<Op>, i: nat)
    requires IsRun(cfg, states, ops) && i < |states|
    ensures Valid(states[i])
  {
    hide Effect, Legal;
    if i > 0 {
      RunKeepsValid(cfg, states, ops, i - 1);
      EffectKeeps(cfg, states[i - 1], ops[i - 1]);
    }
  }

  lemma {:induction false} IdsGrow(cfg: Config, states: seq<State>, ops: seq<Op>, i: nat, j: nat)
    requires IsRun(cfg, states, ops) && i <= j < |states|
    ensures states[i].nextId <= states[j].nextId
  {
    hide Effect, Legal;
    if i < j {
      IdsGrow(cfg, states, ops, i, j - 1);
      RunKeepsValid(cfg, states, ops, j - 1);
      EffectKeeps(cfg, states[j - 1], ops[j - 1]);
    }
  }

  /** Ids are never reused: once a track is gone, its id stays gone. */
  lemma {:induction false} IdsAreNeverReused(cfg: Config, states: seq<State>, ops: seq<Op>,
                                             i: nat, j: nat, k: nat, id: nat)
    requires IsRun(cfg, states, ops) && i <= j <= k < |states|
    requires id in states[i].tracks && id !in states[j].tracks
    ensures id !in states[k].tracks
  {
    hide Effect, Legal;
    if j < k {
      IdsAreNeverReused(cfg, states, ops, i, j, k - 1, id);
      RunKeepsValid(cfg, states, ops, i);
      RunKeepsValid(cfg, states, ops, k - 1);
      IdsGrow(cfg, states, ops, i, k - 1);
      EffectKeeps(cfg, states[k - 1], ops[k - 1]);
    }
  }

  /** As long as only updates are called, the ceiling holds all along the run. */
  lemma {:induction false} CeilingHolds(cfg: Config, states: seq<State>, ops: seq<Op>, i: nat)
    requires IsRun(cfg, states, ops) && i < |states|
    requires forall k | 0 <= k < i :: !ops[k].Create?
    ensures |states[i].tracks| <= cfg.maxTracks
  {
    hide Effect, Legal;
    if i > 0 {
      CeilingHolds(cfg, states, ops, i - 1);
      RunKeepsValid(cfg, states, ops, i - 1);
      EffectKeeps(cfg, states[i - 1], ops[i - 1]);
      if ops[i - 1].Remove? || ops[i - 1].Clear? {
        DropKeepsCeiling(cfg, states[i - 1], ops[i - 1]);
      }
    }
  }

  lemma DropKeepsCeiling(cfg: Config, s: State, op: Op)
    requires op.Remove? || op.Clear?
    ensures |Effect(cfg, s, op).tracks| <= |s.tracks|
  {
    var r := Effect(cfg, s, op);
    SubsetSize(r.tracks.Keys, s.tracks.Keys);
  }

  // ---- The tracker object ----

  /** The chosen tracks take their detections, the others stay. */
  function ApplyChosen(tracks: map<nat, Track>, chosen: map<nat, nat>, detections: seq<Detection>, now: Clock)
    : map<nat, Track>
    requires forall id | id in chosen :: chosen[id] < |detections|
  {
    map id | id in tracks ::
      if id in chosen then UpdateWithDetection(tracks[id], detections[chosen[id]], now(chosen[id]))
      else tracks[id]
  }

  function AgeAll(tracks: map<nat, Track>, matched: set<nat>): map<nat, Track> {
    map id | id in tracks :: if id in matched then tracks[id] else PredictOnly(tracks[id])
  }

  lemma ApplyThenAge(tracks: map<nat, Track>, chosen: map<nat, nat>, detections: seq<Detection>, now: Clock)
    requires forall id | id in chosen :: chosen[id] < |detections|
    ensures AgeAll(ApplyChosen(tracks, chosen, detections, now), chosen.Keys)
         == Associate(tracks, chosen, detections, now)
  {
  }

  lemma ValuesGrow(m: map<nat, nat>, id: nat, j: nat)
    requires id !in m
    ensures Values(m[id := j]) == Values(m) + {j}
  {
    var r := m[id := j];
    assert forall x | x in m :: r[x] == m[x];
    assert r[id] == j;
  }

  lemma IdsAreFresh(c: Matrix, ids: seq<nat>, assignment: Partial, threshold: real, i: nat, keys: set<nat>)
    requires |assignment| == |c| == |ids| && i < |ids| && Enumerates(ids, keys)
    requires forall i | 0 <= i < |c| && assignment[i].Some? :: assignment[i].value < |c[i]|
    ensures ids[i] in keys && ids[i] !in Accepted(c, ids, assignment, threshold, i)
  {
    AcceptedIs(c, ids, assignment, threshold, i, i);
  }

  class MultiTargetTracker {
    var tracks: map<nat, Track>
    var nextId: nat
    const cfg: Config

    constructor (cfg: Config)
      ensures this.cfg == cfg && At() == State(map[], 1)
    {
      this.cfg := cfg;
      tracks := map[];
      nextId := 1;
    }

    function At(): State
      reads this
    {
      State(tracks, nextId)
    }

    method CreateTrack(d: Detection, now: int) returns (id: nat)
      modifies this
      ensures id == old(nextId) && At() == Effect(cfg, old(At()), Create(d, now))
    {
      id := nextId;
      nextId := nextId + 1;
      tracks := tracks[id := NewTrack(id, d, now)];
    }

    method RemoveTrack(id: nat) returns (found: bool)
      modifies this
      ensures found <==> id in old(tracks)
      ensures At() == Effect(cfg, old(At()), Remove(id))
    {
      found := id in tracks;
      tracks := tracks - {id};
    }

    method ClearTracks()
      modifies this
      ensures At() == Effect(cfg, old(At()), Clear)
    {
      tracks := map[];
    }

    /** The keys of the track map, in whatever order the map lists them. */
    method Keys() returns (ids: seq<nat>)
      ensures Enumerates(ids, tracks.Keys)
    {
      ids := [];
      var rest := tracks.Keys;
      while rest != {}
        invariant Distinct(ids) && rest <= tracks.Keys
        invariant forall id :: id in ids <==> id in tracks.Keys && id !in rest
        decreases rest
      {
        var id :| id in rest;
        ids := ids + [id];
        rest := rest - {id};
      }
    }

    /** New tracks for the detections that are not taken, until the ceiling is reached. */
    method CreateUnmatched(detections: seq<Detection>, taken: set<nat>, now: Clock)
      modifies this
      ensures At() == CreateTracks(old(At()), detections, taken, |detections|, cfg.maxTracks, now)
    {
      for j := 0 to |detections|
        invariant At() == CreateTracks(old(At()), detections, taken, j, cfg.maxTracks, now)
      {
        if j !in taken {
          if |tracks| >= cfg.maxTracks {
            continue;
          }
          var id := CreateTrack(detections[j], now(j));
        }
      }
    }

    /** Apply the accepted pairs to their tracks. */
    method ApplyMatches(detections: seq<Detection>, now: Clock, ids: seq<nat>, costs: Matrix, assignment: Partial)
      returns (taken: set<nat>, matched: set<nat>)
      requires |assignment| == |costs| == |ids| && Enumerates(ids, tracks.Keys)
      requires forall i | 0 <= i < |costs| && assignment[i].Some? :: assignment[i].value < |detections| <= |costs[i]|
      modifies this`tracks
      ensures var chosen := Accepted(costs, ids, assignment, cfg.matchIouThreshold, |ids|);
              && (forall id | id in chosen :: chosen[id] < |detections|)
              && tracks == ApplyChosen(old(tracks), chosen, detections, now)
              && matched == chosen.Keys && taken == Values(chosen)
    {
      hide Enumerates;
      ghost var before := tracks;
      var th := cfg.matchIouThreshold;
      taken, matched := {}, {};
      ghost var chosen: map<nat, nat> := map[];
      for i := 0 to |ids|
        invariant chosen == Accepted(costs, ids, assignment, th, i)
        invariant matched == chosen.Keys && taken == Values(chosen)
        invariant forall id | id in chosen :: chosen[id] < |detections|
        invariant tracks == ApplyChosen(before, chosen, detections, now)
      {
        if assignment[i].Some? {
          var j := assignment[i].value;
          if 1.0 - costs[i][j] >= th {
            IdsAreFresh(costs, ids, assignment, th, i, before.Keys);
            tracks := tracks[ids[i] := UpdateWithDetection(tracks[ids[i]], detections[j], now(j))];
            taken := taken + {j};
            matched := matched + {ids[i]};
            chosen := chosen[ids[i] := j];
            ValuesGrow(Accepted(costs, ids, assignment, th, i), ids[i], j);
          }
        }
      }
    }

    /** Age the tracks that are not matched. */
    method AgeOthers(ids: seq<nat>, matched: set<nat>)
      requires Enumerates(ids, tracks.Keys)
      modifies this`tracks
      ensures tracks == AgeAll(old(tracks), matched)
    {
      ghost var before := tracks;
      for i := 0 to |ids|
        invariant tracks.Keys == before.Keys
        invariant forall id | id in before ::
                    tracks[id] == if id !in matched && id in ids[..i] then PredictOnly(before[id]) else before[id]
      {
        if ids[i] !in matched {
          tracks := tracks[ids[i] := PredictOnly(tracks[ids[i]])];
        }
      }
      assert ids[..|ids|] == ids;
    }

    method UpdateTracks(detections: seq<Detection>, now: Clock, later: Clock)
      returns (ghost ids: seq<nat>, ghost assignment: Partial)
      modifies this
      ensures Legal(old(At()), Update(detections, now, later, ids, assignment))
      ensures At() == Effect(cfg, old(At()), Update(detections, now, later, ids, assignment))
    {
      hide Enumerates, OptimalPartial, Iou;
      ids, assignment := [], [];
      ghost var before := tracks;
      if tracks == map[] {
        if cfg.autoCreate {
          CreateUnmatched(detections, {}, now);
        }
        return;
      }
      if detections == [] {
        tracks := map id | id in tracks :: PredictOnly(tracks[id]);
        RemoveLostTracks(later);
        return;
      }
      var order := Keys();
      var costs := Costs(tracks, order, detections);
      var solution := Solve.Solve(costs);
      ids, assignment := order, solution;
      OptimalInRange(costs, solution);
      var taken, matched := ApplyMatches(detections, now, order, costs, solution);
      ghost var chosen := Accepted(costs, order, solution, cfg.matchIouThreshold, |order|);
      AgeOthers(order, matched);
      ApplyThenAge(before, chosen, detections, now);
      if cfg.autoCreate {
        CreateUnmatched(detections, taken, now);
      }
      RemoveLostTracks(later);
    }

    method RemoveLostTracks(later: Clock)
      modifies this
      ensures tracks == RemoveLost(cfg, old(tracks), later) && nextId == old(nextId)
    {
      tracks := map id | id in tracks && !Lost(cfg, tracks[id], later(id)) :: tracks[id];
    }
  }

  lemma OptimalInRange(c: Matrix, t: Partial)
    requires Rectangular(c) && OptimalPartial(c, t)
    ensures |t| == |c| && forall i | 0 <= i < |c| && t[i].Some? :: t[i].value < Width(c) <= |c[i]|
  {
  }
}
