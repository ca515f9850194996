# Auto-targeting: verified models of the core

Dafny models of the parts of the auto-targeting system where a mistake is hard to see: the
assignment solver and the tracker on top of it, the shared-memory frame ring, the commander's
safety stack, non-maximum suppression, and the frame codecs. Each model takes the branches,
constants and error cases of the code it cites.

| files | what they hold |
|---|---|
| `Assignment`, `Hungarian`, `Solve` | permutations and the duality certificate; the O(n^3) solver with its arrays, loop by loop; padding of rectangular matrices |
| `Boxes`, `Nms`, `Tracker`, `TrackerLaws` | u32 boxes and IoU; greedy suppression; the multi-target tracker; what an update does to every track and every detection |
| `Ring`, `RingInvariant`, `RingProperties` | the frame ring as a system of atomic steps of one producer and any number of readers; its invariant; what clients may rely on |
| `RingPublish`, `RingProgress` | when a frame is published, over every run; nobody waits for anybody |
| `RingAnswers`, `RingContention` | what "up to date" and "nothing" are worth under interference; a run in which readers alone make the first wrong |
| `RingAlone`, `FrameRing` | each ring call as one transition, proved to be what its atomic steps add up to; the ring object with its arrays and retry loops |
| `Detector` | the detector's cursor over the ring |
| `StateMachine`, `RateLimiter`, `AntiLoop`, `Commander`, `CommanderBus` | the commander's parts, the commander, and its bus loop, over whole timed runs: what they never do |
| `AntiLoopRuns`, `CommanderRuns` | what they do: every decision of the guard, and every effect of a frame update, told from the run so far |
| `Base64` | the Rust encoder, the C++ decoder, and the extraction from the JSON envelope |
| `Color`, `Convert`, `ConvertLaws` | fixed-point BT.601; the NV12/RGB frame loops; every byte of the result in terms of its own pixels |
| `Common`, `Arithmetic` | shared types and division facts |

`dafny verify dfyconfig.toml` checks everything.

Code that updates things in place is a class or a method with loops. Where its promise can be
said outright, its `ensures` says it: an optimal assignment, the survivors, the rows of the
converted image. Elsewhere the `ensures` equates the new state with a function of the old one
(`Effect`, `Judge`, `Update`, `RunTurns`, `PublishAlone`, ...). Those functions are the code once
more, as expressions; the specification is in the lemmas about them, which say what they
guarantee over whole runs. Time,
the flight controller's replies, the order in which a hash map lists its keys, and the answers a
reader gets from other processes are inputs, so every theorem holds for all of them.

Where the code does less than its description says, the models follow the code and say exactly
when it falls short:

- `select_target` lists four states and succeeds from one (`Commander.SelectOnlyFromScanning`).
- `disarm` ignores that its move to Idle may be rejected. It reaches Idle from four states only
  (`Commander.DisarmReachesIdle`), and a run ends up tracking without a target exactly by a disarm
  in the midst of tracking (`Commander.TracksBlindExactly`).
- `next_after` can say "up to date" about a frame that is published and in the window. Left alone
  it does so exactly while that frame is being replaced (`RingAlone.NextAfterAnswers`); with
  others running in between, exactly when all of its tries have failed, for which it must have
  been disturbed as often (`RingAnswers.UpToDateExactly`). Other readers alone can do that
  (`RingContention.FalseUpToDate`).
- The oscillation guard does not look at turns of 0.1 or less. Exactly for those, and only if the
  window and the threshold leave something to detect, the bound on sign changes fails
  (`AntiLoop.CalmIsKeptExactly`, `AntiLoop.RunsStayCalmExactly`). An abort count above 5 never
  aborts (`AntiLoop.AbortExactly`).
- IoU of a box with itself is 1 exactly while nothing overflows (`Boxes.SelfIou`).
- `rgb24_to_nv12` makes images of odd height, on which `nv12_to_rgb24` panics
  (`Convert.OddHeightDoesNotComeBack`, `Convert.ChromaInDataExactly`).

## Model

| member | source | states |
|---|---|---|
| Hungarian.Hungarian | auto-targeting/crates/target-tracker/src/hungarian.rs:64-145 | for every square matrix the result is a permutation, and no other permutation costs less; the loops terminate |
| Assignment.TightIsOptimal | auto-targeting/crates/target-tracker/src/hungarian.rs:64-145 | feasible potentials that are tight along a permutation certify that it is optimal |
| Hungarian.AssignRow | auto-targeting/crates/target-tracker/src/hungarian.rs:85-135 | one round of the row loop matches exactly one more row, injectively, and keeps cost - u - v nonnegative on the matched rows and zero on matched pairs |
| Hungarian.FreeColumn | auto-targeting/crates/target-tracker/src/hungarian.rs:91-125 | while fewer rows than columns are matched there is a free column, so the search ends |
| Hungarian.Relax | auto-targeting/crates/target-tracker/src/hungarian.rs:97-109 | the scan tightens every slack with the new row, records where from, and returns a column of least slack outside the tree |
| Hungarian.Shift | auto-targeting/crates/target-tracker/src/hungarian.rs:111-118 | the dual update moves delta across the tree columns, their rows and the other slacks, and touches nothing else |
| Hungarian.ShiftKeepsFeasible | auto-targeting/crates/target-tracker/src/hungarian.rs:111-118 | after the update no reduced cost is negative, for the new row too |
| Hungarian.ShiftKeepsTight | auto-targeting/crates/target-tracker/src/hungarian.rs:111-118 | after the update every matched pair still has reduced cost zero |
| Hungarian.Search | auto-targeting/crates/target-tracker/src/hungarian.rs:87-124 | the search ends at a free column that hangs by a tight edge from a tree of tight edges, acyclic by a rank that falls along `way` |
| Hungarian.Augment | auto-targeting/crates/target-tracker/src/hungarian.rs:127-134 | following `way` ends at column 0 and leaves rows 1..i matched injectively along tight cells |
| Hungarian.CompleteIsOptimal | auto-targeting/crates/target-tracker/src/hungarian.rs:137-144 | a complete matching under the loop invariant, read off by row, is an optimal permutation |
| Solve.Solve | auto-targeting/crates/target-tracker/src/hungarian.rs:24-59 | on any n by m matrix min(n, m) rows get distinct real columns, and no other assignment of that many rows costs less |
| Solve.UnpadIsOptimal | auto-targeting/crates/target-tracker/src/hungarian.rs:33-58 | dropping the padding from an optimal permutation gives that, whatever the padding constant, even one below the real costs |
| Solve.RealCells | auto-targeting/crates/target-tracker/src/hungarian.rs:33-58 | every permutation of the padded square uses exactly min(n, m) real cells |
| Solve.CompleteCost | auto-targeting/crates/target-tracker/src/hungarian.rs:33-58 | every partial assignment of min(n, m) rows extends to a permutation that costs as much plus a fixed padding |
| Tracker.MultiTargetTracker.UpdateTracks | auto-targeting/crates/target-tracker/src/multi_tracker.rs:155-270 | the update has the specified effect, for some key order, some optimal assignment, and any clock reading at each detection and each track |
| Tracker.MultiTargetTracker.CreateTrack | auto-targeting/crates/target-tracker/src/multi_tracker.rs:144-151 | a new track is stored under the next id, which is used up |
| Tracker.MultiTargetTracker.RemoveLostTracks | auto-targeting/crates/target-tracker/src/multi_tracker.rs:272-290 | exactly the tracks with too many misses or too old are gone, the others untouched |
| Tracker.MultiTargetTracker.ApplyMatches | auto-targeting/crates/target-tracker/src/multi_tracker.rs:212-232 | exactly the tracks whose assigned overlap reaches the threshold take their detection, and both index sets are right |
| TrackerLaws.AcceptedExactly | auto-targeting/crates/target-tracker/src/multi_tracker.rs:218-232 | an assigned pair is accepted, with its own detection, if and only if its overlap reaches the threshold |
| TrackerLaws.OldTracksExactly | auto-targeting/crates/target-tracker/src/multi_tracker.rs:65-290 | a track whose assigned pair reaches the threshold takes that detection's box, confidence and time, one confirmation more and no misses; any other keeps what it had and is aged by one; each is forgotten exactly for too many misses or for its age |
| TrackerLaws.NoDetections | auto-targeting/crates/target-tracker/src/multi_tracker.rs:181-188 | without detections every track is aged by one and nothing is added |
| TrackerLaws.NewTracksExactly | auto-targeting/crates/target-tracker/src/multi_tracker.rs:156-268 | with automatic creation every detection that no accepted pair took becomes a track, in order, under the next ids, while there is room; without it none does |
| TrackerLaws.TakenExactly | auto-targeting/crates/target-tracker/src/multi_tracker.rs:218-232 | a detection counts as taken if and only if some assigned pair of it reaches the threshold |
| TrackerLaws.LostExactly | auto-targeting/crates/target-tracker/src/multi_tracker.rs:276-279 | a track is forgotten if and only if it has more misses, or a greater age, than allowed |
| TrackerLaws.OperatorsCalls | auto-targeting/crates/target-tracker/src/multi_tracker.rs:144-151 | creating adds one track under the next id, removing and clearing take tracks away, and no other track is touched |
| Tracker.ChosenPairs | auto-targeting/crates/target-tracker/src/multi_tracker.rs:190-232 | accepted pairs are part of the optimal assignment, overlap at least the threshold, and no detection is given twice |
| Tracker.OldTracks | auto-targeting/crates/target-tracker/src/multi_tracker.rs:65-290 | an old track takes its detection's box, confidence and time and resets its misses, or keeps them and is aged by one, saturating; it survives exactly when the result is not lost |
| Tracker.NewTracks | auto-targeting/crates/target-tracker/src/multi_tracker.rs:156-265 | a track that an update adds has a fresh id and starts from a detection that no track took |
| Tracker.EffectKeeps | auto-targeting/crates/target-tracker/src/multi_tracker.rs:144-290 | every call keeps ids below the next one, gives fresh ids only, and an update never grows past max(count before, max_tracks) |
| Tracker.IdsAreNeverReused | auto-targeting/crates/target-tracker/src/multi_tracker.rs:144-151 | over every run, an id that has gone never comes back |
| Tracker.CeilingHolds | auto-targeting/crates/target-tracker/src/multi_tracker.rs:159-262 | over every run without operator-made tracks the count stays within max_tracks |
| Boxes.IouIsPixelRatio | auto-targeting/crates/common/src/types.rs:99-115 | without overflow, IoU is the number of lattice pixels in both boxes over the number in either |
| Boxes.IouIsSimilarity | auto-targeting/crates/common/src/types.rs:99-115 | hence symmetric, within [0, 1], positive exactly for boxes sharing a pixel, and 1 exactly for equal boxes |
| Boxes.SelfIou | auto-targeting/crates/common/src/types.rs:99-115 | with u32 wrap-around, a non-empty box has IoU 1 with itself if and only if nothing overflows |
| Nms.NonMaxSuppression | auto-targeting/crates/cv-inference/src/nms.rs:12-43 | the sort and the loop return the survivors of the stably sorted list |
| Nms.NonMaxSuppressionCpp | auto-targeting/rknn-bridge/src/nms.cpp:30-61 | from any sorted order the C++ loop returns that order's survivors; with distinct confidences that is the Rust result |
| Nms.GreedyLoop | auto-targeting/crates/cv-inference/src/nms.rs:23-40 | the nested loops over the flags keep exactly the entries that overlap no kept entry before them |
| Nms.SurvivorsCharacterised | auto-targeting/crates/cv-inference/src/nms.rs:23-40 | the kept indices are the one and only set whose members do not overlap and that overlaps, earlier, every index left out |
| Nms.SurvivorsAreGreedy | auto-targeting/crates/cv-inference/src/nms.rs:1-4 | the loop's result equals the recursive definition: keep the best, remove what overlaps it, repeat |
| Nms.SuppressionIsIdempotent | auto-targeting/crates/cv-inference/src/nms.rs:12-43 | suppressing twice is suppressing once, sorting included |
| Nms.StableSortSorts | auto-targeting/crates/cv-inference/src/nms.rs:17-21 | the sort orders by descending confidence, keeps all entries, and keeps the order among equals |
| Nms.SortsAgree | auto-targeting/rknn-bridge/src/nms.cpp:36-39 | with distinct confidences any sort gives the stable sort's order |
| RingInvariant.StepKeepsInv | auto-targeting/crates/shmem-buffer/src/ring.rs:447-804 | every atomic step of the producer or a reader keeps the ring's invariant |
| RingInvariant.RunKeepsInv | auto-targeting/crates/shmem-buffer/src/ring.rs:447-804 | the invariant holds at every point of every interleaving |
| RingProperties.MutualExclusion | auto-targeting/crates/shmem-buffer/src/ring.rs:467-505 | a slot's word is the writer's sentinel exactly while the producer is between its swap and its release, and then no reader is inside; otherwise it counts the readers inside |
| RingProperties.GuardShowsPublishedFrame | auto-targeting/crates/shmem-buffer/src/ring.rs:757-804 | no torn read: bytes and metadata behind a live guard are those of the publish call that was given the guard's id |
| RingProperties.GuardIsStable | auto-targeting/crates/shmem-buffer/src/ring.rs:594-633 | they do not change while the guard lives |
| RingProperties.IdsAreConsecutive | auto-targeting/crates/shmem-buffer/src/ring.rs:457-511 | published ids are 1, 2, 3, ... without gaps, published and dropped add up to the calls made, no drop is blamed on the writer, and each slot holds its id of the last capacity stored ones |
| RingProperties.FrameIdsGrowAlong | auto-targeting/crates/shmem-buffer/src/ring.rs:499 | over any stretch of any run, the id in a slot never goes back |
| RingProperties.NextAfterGivesSuccessor | auto-targeting/crates/shmem-buffer/src/ring.rs:716-751 | a guard from next_after(last) carries id last + 1, saturating, and no other |
| RingProperties.TooFarBehindIsFinal | auto-targeting/crates/shmem-buffer/src/ring.rs:729-734 | TooFarBehind means that the frame was published and that its slot holds a newer one now and for ever |
| RingProperties.LatestIsFresh | auto-targeting/crates/shmem-buffer/src/ring.rs:702-712 | latest returns an id of the sampled frame's slot, not older than the sample, ahead of write_seq by at most one |
| RingPublish.PublishedExactly | auto-targeting/crates/shmem-buffer/src/ring.rs:457-512 | over every run a claiming call returns Published with the next id if and only if nobody is inside its slot at that step, and Dropped otherwise |
| RingPublish.RefusedExactly | auto-targeting/crates/shmem-buffer/src/ring.rs:467-484 | the swap is refused if and only if some reader counts in the slot at that step, whatever the slot held before |
| RingPublish.ClaimingExactly | auto-targeting/crates/shmem-buffer/src/ring.rs:447-462 | a call goes for a slot if and only if its frame has the right size and an id is left |
| RingAnswers.UpToDateExactly | auto-targeting/crates/shmem-buffer/src/ring.rs:716-804 | over every run, a call for a published frame that has ended says UpToDate if and only if every one of its tries failed, and no more tries fail than steps disturb it |
| RingAnswers.UndisturbedIsTruthful | auto-targeting/crates/shmem-buffer/src/ring.rs:716-751 | UpToDate from a call disturbed fewer than 256 times means that the frame was not published when the call began |
| RingAnswers.NoTryFailsUndisturbed | auto-targeting/crates/shmem-buffer/src/ring.rs:757-804 | no try fails while the slot is free of the writer, keeps the wanted frame, and nobody else changes its counter |
| RingAnswers.NothingNeedsLostSpins | auto-targeting/crates/shmem-buffer/src/ring.rs:702-804 | over every run, latest answers with nothing about a published frame only after all 64 spins were lost to the writer in its slot or to others changing the counter |
| RingContention.FalseUpToDate | auto-targeting/crates/shmem-buffer/src/ring.rs:764-802 | on every ring there is a run where the producer rests, the wanted frame stays in its slot, and next_after says UpToDate because other readers win every swap |
| RingProgress.PublishReturns | auto-targeting/crates/shmem-buffer/src/ring.rs:441-512 | drop-new never blocks: in every run a publish call returns within frame size plus 8 of its own steps, whatever the readers do |
| RingProgress.ReaderReturns | auto-targeting/crates/shmem-buffer/src/ring.rs:702-804 | in every run a reader's own steps and those it has left never add up to more than it had left |
| RingProgress.CallReturns | auto-targeting/crates/shmem-buffer/src/ring.rs:702-804 | next_after returns within 256 times 132 plus 6 of its own steps, latest within 138, under any interference |
| RingAlone.PublishStepsAddUp | auto-targeting/crates/shmem-buffer/src/ring.rs:447-512 | without interference the atomic steps of publish, byte copies included, make exactly the one transition and return its result |
| RingAlone.FetchStepsAddUp | auto-targeting/crates/shmem-buffer/src/ring.rs:702-804 | the same for latest and next_after with all their spins and tries, wherever the producer stands |
| RingAlone.NextAfterAnswers | auto-targeting/crates/shmem-buffer/src/ring.rs:716-751 | a call that runs undisturbed, from any reachable state, succeeds, reports TooFarBehind or says UpToDate exactly under the stated conditions; its UpToDate is wrong exactly while that very frame is being replaced |
| RingAlone.LatestAnswers | auto-targeting/crates/shmem-buffer/src/ring.rs:702-712 | latest, left alone, succeeds exactly when a frame exists and the writer is not inside the only slot; it returns the newest stored frame of that slot |
| RingAlone.OutOfReach | auto-targeting/crates/shmem-buffer/src/ring.rs:467-509 | a published id of the window is locked or overwritten if and only if the producer is replacing it |
| RingAlone.GuardBlocksPublish | auto-targeting/crates/shmem-buffer/src/ring.rs:467-484 | drop-new: while a guard is out a frame for its slot is dropped and counted, and dropping the guard restores the segment |
| RingAlone.PublishAnswers | auto-targeting/crates/shmem-buffer/src/ring.rs:447-512 | publish, left alone, publishes if and only if the frame has the right size, an id is left and the slot's counter is 0; what each other answer means, and that nothing else changes |
| RingAlone.PublishedIsRead | auto-targeting/crates/shmem-buffer/src/ring.rs:447-512 | after a successful publish, latest and next_after return that frame byte for byte |
| FrameRing.FrameRing.Publish | auto-targeting/crates/shmem-buffer/src/ring.rs:447-512 | on the arrays, publish makes that transition, error returns included |
| FrameRing.FrameRing.CopyIn | auto-targeting/crates/shmem-buffer/src/ring.rs:491-496 | copying a frame into its stretch of the data area leaves every other slot's bytes alone |
| FrameRing.FrameRing.TryAcquire | auto-targeting/crates/shmem-buffer/src/ring.rs:757-804 | busy exactly on a locked slot, mismatch with the counter restored, or a guard with the counter one up |
| FrameRing.FrameRing.NextAfter | auto-targeting/crates/shmem-buffer/src/ring.rs:716-751 | the bounded retry loop makes the next_after transition |
| FrameRing.FrameRing.Latest | auto-targeting/crates/shmem-buffer/src/ring.rs:702-712 | makes the latest transition |
| FrameRing.FrameRing.DropGuard | auto-targeting/crates/shmem-buffer/src/ring.rs:625-633 | takes one from the slot's counter and changes nothing else |
| FrameRing.Apart | auto-targeting/crates/shmem-buffer/src/ring.rs:342-348 | the stretches of different slots in the data area do not overlap |
| Detector.Cursor.Acquire | auto-targeting/crates/detector/src/lib.rs:478-499 | the cursor and the jump counter move as specified on every answer of the ring |
| Detector.AnswersAreHonest | auto-targeting/crates/shmem-buffer/src/ring.rs:716-751 | every answer that any run of the ring gives meets what the cursor relies on |
| Detector.AcquireAdvances | auto-targeting/crates/detector/src/lib.rs:478-499 | one call advances by exactly one without a jump, and by more than the capacity with one |
| Detector.IdsIncrease | auto-targeting/crates/detector/src/lib.rs:478-499 | over every run frame ids strictly increase, and successive frames are neighbours if and only if no jump was counted between them |
| Detector.FoundIsReturned | auto-targeting/crates/detector/src/lib.rs:478-499 | a call returns a frame if and only if an answer held one, before or after a jump, and the cursor then stands on it |
| Detector.GuardIsReturned | auto-targeting/crates/detector/src/lib.rs:483-487 | a guard that the ring gives to the cursor's question is what the call returns |
| Detector.DetectorSeesIncreasingIds | auto-targeting/crates/detector/src/lib.rs:478-499 | in every run of the ring whose answers the cursor gets, the returned ids strictly increase and every gap is a counted jump |
| Detector.LastIdRepeats | auto-targeting/crates/shmem-buffer/src/ring.rs:725 | the one exception: past the last u64 id saturation makes the same frame come again |
| StateMachine.StateMachine.TryTransition | auto-targeting/crates/commander/src/state_machine.rs:55-74 | succeeds on the current state or an allowed edge, counts real transitions only, and else changes nothing |
| StateMachine.StateMachine.ForceTransition | auto-targeting/crates/commander/src/state_machine.rs:79-91 | enters any other state and counts it |
| StateMachine.DiagramHolds | auto-targeting/crates/commander/src/state_machine.rs:93-117 | the edges of the documented diagram are allowed |
| StateMachine.WaysInAndOut | auto-targeting/crates/commander/src/state_machine.rs:118-151 | for every state, exactly which states lead to it |
| StateMachine.TryExactly | auto-targeting/crates/commander/src/state_machine.rs:55-91 | a transition succeeds if and only if it is allowed or there is nothing to do, ends in the state asked for, and is counted if it moves |
| StateMachine.TrackingAfterAbort | auto-targeting/crates/commander/src/state_machine.rs:118-151 | between an entry to Abort and a later tracking state lie Idle, Armed, Scanning and TargetSelected in this order |
| RateLimiter.CommandRateLimiter.TrySend | auto-targeting/crates/fc-adapter/src/rate_limiter.rs:37-65 | sends if and only if nothing was sent within the interval, and counts accordingly |
| RateLimiter.CommandRateLimiter.ForceSend | auto-targeting/crates/fc-adapter/src/rate_limiter.rs:69-72 | always sends and restarts the interval |
| RateLimiter.SentExactly | auto-targeting/crates/fc-adapter/src/rate_limiter.rs:37-72 | over every run a call is let through if and only if it is forced, or the last send, if any, is at least one interval ago |
| RateLimiter.LimiterRemembers | auto-targeting/crates/fc-adapter/src/rate_limiter.rs:37-72 | the limiter knows the run's last send, and sent and dropped add up to the calls |
| RateLimiter.AtMostRate | auto-targeting/crates/fc-adapter/src/rate_limiter.rs:37-72 | of times spaced by the interval, any window holds at most its length divided by the interval, plus one |
| AntiLoop.AntiLoopGuard.Process | auto-targeting/crates/commander/src/anti_loop.rs:106-201 | one call decides and changes the guard as specified: freeze, dead band, clipping, oscillation |
| AntiLoop.AntiLoopGuard.CountSignChanges | auto-targeting/crates/commander/src/anti_loop.rs:257-273 | the loop counts the neighbours that differ in the history with the new sign |
| AntiLoopRuns.DecisionExactly | auto-targeting/crates/commander/src/anti_loop.rs:106-201 | over every run: suppressed in the dead band or within a second of a trigger; else a trigger if and only if a turn stronger than 0.1 makes the turns more than the threshold's share of the signs remembered; else the clipped command is let through |
| AntiLoopRuns.HistoryIsRecentSigns | auto-targeting/crates/commander/src/anti_loop.rs:193-231 | the signs remembered are the last window of those let through since the run's last trigger |
| AntiLoopRuns.EscalationExactly | auto-targeting/crates/commander/src/anti_loop.rs:203-242 | a trigger aborts if and only if, with it, at least abort_count triggers are less than five seconds old; else it degrades |
| AntiLoopRuns.ChangesCountTurns | auto-targeting/crates/commander/src/anti_loop.rs:257-273 | the counted changes are the places where neighbouring signs differ |
| AntiLoopRuns.OneTurnIsAllowed | auto-targeting/crates/commander/src/anti_loop.rs:176-200 | a run under the default limits: a single reversal after three commands is let through |
| AntiLoop.AllowedIsClipped | auto-targeting/crates/commander/src/anti_loop.rs:141-178 | what is let through is the input moved to the nearest values within all limits |
| AntiLoop.TriggersAreSpaced | auto-targeting/crates/commander/src/anti_loop.rs:106-121 | over every run with a monotone clock triggers are at least a second apart |
| AntiLoop.RecentIsHistory | auto-targeting/crates/commander/src/anti_loop.rs:203-220 | the remembered triggers are the whole run's triggers of the five seconds up to the latest |
| AntiLoop.AbortExactly | auto-targeting/crates/commander/src/anti_loop.rs:203-242 | a trigger aborts if and only if it makes at least abort_count within five seconds; there are never more than five, so a larger abort_count never aborts |
| AntiLoop.SuppressedExactly | auto-targeting/crates/commander/src/anti_loop.rs:109-133 | over every run a call is suppressed if and only if its offsets are in the dead band or it comes within a second of the run's last trigger |
| AntiLoop.CountsAddUp | auto-targeting/crates/commander/src/anti_loop.rs:106-242 | allowed, suppressed and triggers add up to the calls made |
| AntiLoop.HistoryFits | auto-targeting/crates/commander/src/anti_loop.rs:193-197 | the sign history never outgrows its window |
| AntiLoop.HistoryStaysCalm | auto-targeting/crates/commander/src/anti_loop.rs:175-197 | with turns stronger than 0.1 the history's sign changes never exceed the threshold's share of its length |
| AntiLoop.CalmIsKeptExactly | auto-targeting/crates/commander/src/anti_loop.rs:175-197 | a turn keeps every calm history calm if and only if it is stronger than 0.1 or the window and threshold leave nothing to detect |
| AntiLoop.RunsStayCalmExactly | auto-targeting/crates/commander/src/anti_loop.rs:106-201 | every run from the start stays calm, whatever the commands, if and only if no yaw is allowed at all or there is nothing to detect |
| AntiLoop.WeakTurnsEscape | auto-targeting/crates/commander/src/anti_loop.rs:179 | a run from the start under the default limits: two weak turns are let through and break the bound |
| Commander.Commander.UpdateFrame | auto-targeting/crates/commander/src/commander.rs:288-356 | the per-frame entry acts only with a target, an offset and a tracking state, and then as the guard decides |
| Commander.Commander.SendCorrectionToFc | auto-targeting/crates/commander/src/commander.rs:457-491 | a rate-limited send changes nothing but the limiter; otherwise one position target goes out: zero position, and the yaw that the camera transform gives for the clamped horizontal offset |
| Commander.Commander.AbortMission | auto-targeting/crates/commander/src/commander.rs:401-415 | Abort is entered and the return-to-launch command sent past the limiter; the target is forgotten only if that succeeds |
| Commander.Commander.Select | auto-targeting/crates/commander/src/commander.rs:257-279 | on success the target is active and the state Tracking; a rejected edge leaves what was done before it |
| Commander.Commander.ResetToIdle | auto-targeting/crates/commander/src/commander.rs:418-430 | works from Abort alone, to Idle, without a target |
| Commander.Commander.ConnectFc | auto-targeting/crates/commander/src/commander.rs:185-206 | connected and Armed on success; connected even when the transition is rejected |
| Commander.Commander.DisarmFc | auto-targeting/crates/commander/src/commander.rs:227-240 | forgets the target, and succeeds even when the move to Idle is rejected |
| Commander.Commander.BeginScanning | auto-targeting/crates/commander/src/commander.rs:243-249 | Scanning without a target, or no change |
| Commander.Commander.ProcessWatchdogExpiries | auto-targeting/crates/commander/src/commander.rs:368-394 | expiries degrade Tracking and nothing else; aborting is left to the caller |
| CommanderRuns.EscalationActs | auto-targeting/crates/commander/src/commander.rs:330-415 | over every run, a turn too many that makes abort_count triggers within five seconds ends in Abort, sends return-to-launch and nothing else, and drops the target if and only if the reply is ok |
| CommanderRuns.TriggerDegrades | auto-targeting/crates/commander/src/commander.rs:325-329 | any other turn too many ends in TrackingDegraded, keeps the target and sends nothing |
| CommanderRuns.AllowedSteers | auto-targeting/crates/commander/src/commander.rs:319-491 | an offset that is let through sends exactly one position target, for the active target, if and only if no command went out within the interval |
| CommanderRuns.OtherwiseNothing | auto-targeting/crates/commander/src/commander.rs:288-324 | while suppressed, or without a target, an offset or a tracking state, an update does nothing |
| CommanderRuns.GuardSeesQuestions | auto-targeting/crates/commander/src/commander.rs:300-317 | the guard's state in the commander is that of its own run on the questions put to it, on a monotone clock |
| CommanderRuns.QuestionFollowsOffset | auto-targeting/crates/commander/src/commander.rs:303-315 | the rates asked for are in proportion to the offset, so the sign remembered is the target's side |
| CommanderRuns.CallsExactly | auto-targeting/crates/commander/src/commander.rs:185-430 | when connect, disarm, scanning, selecting and reset succeed and where they lead; what an abort always does |
| CommanderRuns.ExpireExactly | auto-targeting/crates/commander/src/commander.rs:368-394 | expired watchdogs degrade Tracking if and only if one of them asks for it, and do nothing else |
| Commander.RateIsBounded | auto-targeting/crates/commander/src/commander.rs:401-491 | in every run of any calls, aborts included, a window of time holds at most its length divided by the interval, plus one, position targets |
| Commander.SteeringIsSafe | auto-targeting/crates/commander/src/commander.rs:288-430 | in every run position targets go out only in Tracking or TrackingDegraded and for offsets in range, and tracking after Abort needs the whole way back |
| Commander.SendIsForActiveTarget | auto-targeting/crates/commander/src/commander.rs:288-356 | a new position target is for the target active at the time, and only a frame update sends one |
| Commander.SendFollowsOffset | auto-targeting/crates/commander/src/commander.rs:288-491 | what goes out is the vehicle's yaw plus the turn for the horizontal offset that came in, at the nearest value inside the frame and the guard's limit |
| Commander.TurnIsBounded | auto-targeting/crates/commander/src/transform.rs:134-198 | the turn is half the angle of view at the frame's edge, in proportion inside it, and to the target's side |
| Commander.TargetOnlyWhileTracking | auto-targeting/crates/commander/src/commander.rs:227-430 | in every run a target is active only in a tracking state, or in Abort when the reply to the last return-to-launch was a failure |
| Commander.DisarmReachesIdle | auto-targeting/crates/commander/src/commander.rs:227-240 | a disarm that reports success ends in Idle if and only if it started in Idle, Scanning, Rth or Abort |
| Commander.TargetLostExactly | auto-targeting/crates/commander/src/commander.rs:185-430 | of all calls exactly a successful disarm while tracking leaves a commander tracking without the target it had |
| Commander.TracksBlindExactly | auto-targeting/crates/commander/src/commander.rs:185-430 | a run ends tracking without a target if and only if some disarm came while tracking and it has tracked ever since |
| Commander.TracksItsTarget | auto-targeting/crates/commander/src/commander.rs:185-430 | in every run without such a disarm, tracking goes with a target |
| Commander.DisarmLeavesTracking | auto-targeting/crates/commander/src/commander.rs:227-240 | a run with one: connected, scanning, target chosen, disarmed |
| Commander.SelectOnlyFromScanning | auto-targeting/crates/commander/src/commander.rs:257-279 | choosing a target succeeds if and only if the state is Scanning, and else changes nothing |
| CommanderBus.CommanderBus.Run | auto-targeting/crates/commander/src/bus_runner.rs:87-229 | the loop refines the turn-by-turn specification for any telemetry, tracks and expiries; a failed connect or subscription ends it before the first turn |
| CommanderBus.CommanderBus.DrainQueue | auto-targeting/crates/commander/src/bus_runner.rs:127-188 | up to 32 queued tracks are handled in order, the rest stay queued |
| CommanderBus.CommanderBus.HandleExpired | auto-targeting/crates/commander/src/bus_runner.rs:196-209 | however many expiries ask for it, there is one abort and one reset |
| CommanderBus.WatchdogAborts | auto-targeting/crates/commander/src/bus_runner.rs:196-209 | if and only if some expiry asks for an abort, one return-to-launch goes out and the commander ends in Idle without a target |
| CommanderBus.TurnWithAbort | auto-targeting/crates/commander/src/bus_runner.rs:109-209 | so does a whole turn, whatever tracks it had |
| CommanderBus.TurnTakesItsShare | auto-targeting/crates/commander/src/bus_runner.rs:119-188 | a turn handles the oldest 32 tracks, or all, keeps the rest in order, and counts telemetry |
| CommanderBus.TracksActedOn | auto-targeting/crates/commander/src/bus_runner.rs:145-178 | the first track seen while scanning becomes the target; a stale track or another's sends nothing; a fresh one of the target is a frame update with its offset |
| CommanderBus.StatsCount | auto-targeting/crates/commander/src/bus_runner.rs:168-177 | what the statistics count: commands of the log after a successful send, and successful updates that sent nothing |
| CommanderBus.BeginsByScanning | auto-targeting/crates/commander/src/bus_runner.rs:92-96 | a run that connects begins in Scanning without a target |
| CommanderBus.OffsetLocatesCentre | auto-targeting/crates/commander/src/bus_runner.rs:161-238 | the offset scaled back is the box's centre, and it is in range if and only if the centre is inside the frame |
| CommanderBus.NoTrackIsLost | auto-targeting/crates/commander/src/bus_runner.rs:127-188 | at every turn, tracks handled and tracks queued add up to all that arrived |
| CommanderBus.NoCorrectionAfterAbort | auto-targeting/crates/commander/src/bus_runner.rs:87-229 | whatever the commander's earlier history, a run that has aborted never sends another position target, even if return-to-launch fails, and stays in Abort or Idle |
| Base64.EncodeFrame | auto-targeting/crates/cv-inference/src/bridge_client.rs:408-447 | the chunk loop with its reused buffer and the two padded tails compute the encoding |
| Base64.DecodeFrame | auto-targeting/rknn-bridge/src/bridge_main.cpp:189-206 | the loop over characters computes the decoding, accumulator modulo 2^32 |
| Base64.RoundTrip | auto-targeting/rknn-bridge/src/bridge_main.cpp:180-206 | decoding what was encoded gives back every byte sequence of every length (section 4 of RFC 4648) |
| Base64.KnownTexts | auto-targeting/crates/cv-inference/src/bridge_client.rs:408-447 | the encodings of the first examples of section 10 of RFC 4648 |
| Base64.OnlyWaitingBitsMatter | auto-targeting/rknn-bridge/src/bridge_main.cpp:192-203 | decoding depends on the waiting bits of the accumulator alone, so its overflow has no effect |
| Base64.DecodeIgnoresOthers | auto-targeting/rknn-bridge/src/bridge_main.cpp:194-196 | padding, line breaks and characters outside the alphabet never change the result, wherever they stand |
| Base64.SymbolHasValue | auto-targeting/rknn-bridge/src/bridge_main.cpp:180-187 | the decoder's case distinction inverts the encoder's table |
| Base64.EncodeShape | auto-targeting/crates/cv-inference/src/bridge_client.rs:408-447 | four characters for every started group of three bytes, and no quotation mark |
| Base64.ExtractFindsEncoded | auto-targeting/rknn-bridge/src/bridge_main.cpp:210-218 | from the client's message, whatever its number and later fields, the extraction returns the encoded text |
| Base64.FrameSurvivesTheBridge | auto-targeting/rknn-bridge/src/bridge_main.cpp:180-218 | encoded, wrapped, extracted and decoded, every frame is itself again |
| Color.PixelIsClose | auto-targeting/crates/video-capture/src/convert.rs:424-453 | for every luma and chroma the integer colour is within 1 of the rounded real formula, per channel |
| Color.LumaIsClose | auto-targeting/crates/video-capture/src/convert.rs:457-459 | the integer luma is within 1 of the rounded real formula |
| Color.ChromaIsClose | auto-targeting/crates/video-capture/src/convert.rs:463-471 | the integer chroma is within 70/256 of the real one |
| Color.ColourSurvives | auto-targeting/crates/video-capture/src/convert.rs:448-471 | any colour, sent to luma and chroma and back, moves by at most 3 per channel |
| Color.BoundIsReached | auto-targeting/crates/video-capture/src/convert.rs:448-471 | a colour that moves by 3 |
| Convert.ChromaInDataExactly | auto-targeting/crates/video-capture/src/convert.rs:270 | every line's chroma slice lies within the data if and only if the height is even; with an odd one the last line's does not |
| Convert.Nv12ToRgb24 | auto-targeting/crates/video-capture/src/convert.rs:245-299 | the loops give every paired pixel the colour of its luma and its block's chroma, leave a last odd column black, and report wrong formats and sizes |
| Convert.Rgb24ToNv12 | auto-targeting/crates/video-capture/src/convert.rs:304-396 | luma per pixel and chroma per block, with the tails of odd widths and heights, and the error returns |
| ConvertLaws.LumaOfEveryPixel | auto-targeting/crates/video-capture/src/convert.rs:325-335 | on every image each luma byte is that of its own pixel, and within 1 of the rounded real luma |
| ConvertLaws.ChromaOfEveryBlock | auto-targeting/crates/video-capture/src/convert.rs:339-357 | on every image the chroma bytes of a whole block are the rounded-down means of its four pixels, and within 1 of the rounded real means |
| ConvertLaws.LastColumn | auto-targeting/crates/video-capture/src/convert.rs:358-367 | the last column of an odd width has one component, the mean of its two pixels |
| ConvertLaws.LastRow | auto-targeting/crates/video-capture/src/convert.rs:371-384 | the short last row of an odd height has both components of each pair, and a zero where there is no room |
| ConvertLaws.LastColumnIsBlack | auto-targeting/crates/video-capture/src/convert.rs:272-288 | a last odd column has no chroma and is black |
| Convert.ImageIsClose | auto-targeting/crates/video-capture/src/convert.rs:245-299 | every paired pixel of a converted image is within 1 of the rounded real formula on its bytes |
| Convert.BlockNeedsNoClamp | auto-targeting/crates/video-capture/src/convert.rs:350-354 | the chroma clamp never fires, on any image |
| Convert.BlocksSurvive | auto-targeting/crates/video-capture/src/convert.rs:245-396 | an image of one colour per 2 by 2 block comes back from NV12 with no channel off by more than 3 |
| Convert.ThereAndBack | auto-targeting/crates/video-capture/src/convert.rs:245-396 | the two conversions one after the other succeed on every image of even size and keep that bound |
| Convert.OddHeightDoesNotComeBack | auto-targeting/crates/video-capture/src/convert.rs:254-271 | what rgb24_to_nv12 makes of an odd height passes the size check of nv12_to_rgb24 and panics in its last line |
| Convert.Nv12SizeIs | auto-targeting/crates/video-capture/src/convert.rs:254 | w * h * 3 / 2 is h luma rows plus h / 2 chroma rows, plus half a row for an odd height |

## Left out

- Floating point: `f32` and `f64` are reals, costs and confidences are finite, and infinity is its own constructor. Rounding and NaN are not modelled; NaN confidences, which the Rust sort treats as equal, are outside the model.
- The ring under weak memory: steps are sequentially consistent. There is one producer, and no slot has so many holders that one more would spell the writer's sentinel (`Ring.Uncrowded`); with 2^32 - 2 holders the counter and the sentinel do collide.
- The ring's recovery of dead processes (`recover_stale_slots`, `holder_pid`): the no-torn-read theorem is for runs without it, since freeing a dead producer's lock can expose half-written bytes under the old id.
- Ring.State: the interleaved ring is a value changed by atomic steps, not shared arrays; `FrameRing` has the arrays, for calls that run alone. Several threads on one object are not expressible.
- RingProperties.LatestIsFresh: does not say that the id is write_seq itself, because the slot is released before write_seq moves.
- Segment creation and attachment, mapping, file descriptors, alignment and padding of the header and slot records, and `frame_size`'s choice by format (it is a parameter here).
- Nms.NonMaxSuppression: the standard library's sort is a function with its ordering, content and stability proved, not an in-place algorithm; the list is a value and not updated in place. A detection's class name is left out, its id kept.
- Tracker.MultiTargetTracker.UpdateTracks: does not model the Kalman filter, which the update feeds but never reads. Ids are unbounded where the code uses u64.
- Tracker.CeilingHolds: operator-made tracks may exceed the ceiling, as they may in the code.
- Boxes.IouIsPixelRatio: the overflow condition covers optimised builds, where u32 wraps; a debug build panics instead.
- AntiLoop.TriggersAreSpaced: needs a monotone clock, as the standard library's `Instant` promises.
- Commander.Commander.SendCorrectionToFc: the vehicle's attitude is an input; its pitch, which the transform ignores, is left out. The angle of view is taken in radians.
- CommanderBus.CommanderBus.Run: asynchronous waits are replaced by what they deliver (the replies, the elapsed time, the tracks of the turn), and the time limit by the number of turns; watchdog feeding and status messages are left out, and expiries come as inputs in any order. Frame sides must be positive, as the division needs.
- CommanderBus.CommanderBus.DrainQueue: `corrections_sent` is the limiter's counter, so it includes forced return-to-launch commands, as in the code.
- Commands that only pass through to the flight controller (`arm`, `disconnect`, `set_flight_mode`, `set_roi`).
- Convert.Nv12ToRgb24: requires that the program does not panic, which is on images of the right format and length with zero width or odd height and on no others (`Convert.Nv12Panics`). That an empty chunk size panics is taken from the standard library.
- Convert.Rgb24ToNv12: requires that the program does not panic, which is on images of the right format and length with zero width and on no others. Frame metadata other than size and format is copied and left out, and so are the YUYV and MJPEG conversions.
- Solve.Solve: requires every row to be at least as long as the first, which the code reads without a check.
- JSON in general: only the client's field order and the base64 field matter. The shared-memory path of the bridge carries no encoded text.
- Networking, MAVLink, Zenoh, inference, PID, geofence, battery, telemetry and configuration.
