/** What producers and consumers may rely on, for every run of the ring. */
module RingProperties {
  import opened Arithmetic
  import opened Ring
  import opened RingInvariant

  /** The bytes that a guard gives access to. */
  function GuardBytes(s: State, r: nat): seq<bv8>
    requires Shape(s) && r in s.readers && s.readers[r].Holding?
  {
    s.slots[Home(s.config, s.readers[r])].data
  }

  /** At every point of every run, a slot's word is the writer's sentinel exactly
      while the producer is inside the slot; otherwise it counts the readers inside. */
  lemma MutualExclusion(states: seq<State>, events: seq<Event>, i: nat, k: nat)
    requires IsRun(states, events) && i < |states|
    requires Shape(states[i]) && k < |states[i].slots|
    ensures var s := states[i];
            && (s.slots[k].refCount == WRITER_LOCK <==> Locked(s, k))
            && (Locked(s, k) ==> Holders(s, k) == {})
            && (!Locked(s, k) ==> s.slots[k].refCount == |Holders(s, k)|)
  {
    RunKeepsInv(states, events, i);
    if i > 0 {
      RunKeepsInv(states, events, i - 1);
      assert Step(states[i - 1], events[i - 1], states[i]) && Uncrowded(states[i - 1]);
      LockMeansWriter(states[i - 1], events[i - 1], states[i], k);
    }
  }

  /** One step past a state that is not crowded, the sentinel still means the writer. */
  lemma LockMeansWriter(s: State, e: Event, s': State, k: nat)
    requires Inv(s) && Uncrowded(s) && Step(s, e, s') && Inv(s') && k < |s'.slots|
    ensures s'.slots[k].refCount == WRITER_LOCK ==> Locked(s', k)
  {
    hide IdsExact, SlotsNewest, SlotsShowFrames, CopyProgress, HistoryExact;
    if e.ReaderStep? {
      assert ReaderOk(s, s.readers[e.reader]);
      if s.readers[e.reader].Counts() {
        HolderExcludesWriter(s, e.reader);
      }
    }
    if e.DropGuard? {
      HolderExcludesWriter(s, e.reader);
    }
    assert k < |s.slots| && (!Locked(s, k) ==> s.slots[k].refCount == |Holders(s, k)|);
  }

  /** Call x of `publish` was given id: either it has returned so, or it is the
      call in progress and has stored the frame's id already. */
  ghost predicate WasGiven(s: State, x: nat, id: nat) {
    && x < |s.offers|
    && (if x < |s.results| then s.results[x] == Published(id)
        else x == |s.offers| - 1 && (s.producer.Releasing? || s.producer.StoringSeq?) && s.producer.id == id)
  }

  lemma {:induction false} PublishedIdAt(results: seq<PublishResult>, ids: seq<nat>, i: nat) returns (x: nat)
    requires PublishedIds(results) == ids && i < |ids|
    ensures x < |results| && results[x] == Published(ids[i])
  {
    var n := |results| - 1;
    if results[n].Published? && i == |ids| - 1 {
      x := n;
    } else {
      x := PublishedIdAt(results[..n], PublishedIds(results[..n]), i);
    }
  }

  /** Every stored frame is the one that some `publish` call was given the id for. */
  lemma StoredWasOffered(s: State, id: nat) returns (x: nat)
    requires Inv(s) && 1 <= id <= |s.stored|
    ensures WasGiven(s, x, id) && s.offers[x] == s.stored[id - 1]
  {
    if id <= s.writeSeq {
      x := PublishedIdAt(s.results, PublishedIds(s.results), id - 1);
    } else {
      x := |s.offers| - 1;
    }
  }

  /** No torn read: the bytes and metadata seen through a live guard are exactly
      those of the `publish` call that was given the guard's frame id. */
  lemma GuardShowsPublishedFrame(states: seq<State>, events: seq<Event>, i: nat, r: nat) returns (x: nat)
    requires IsRun(states, events) && i < |states|
    requires r in states[i].readers && states[i].readers[r].Holding?
    ensures var s := states[i];
            var view := s.readers[r].view;
            && Shape(s)
            && WasGiven(s, x, view.id)
            && Frame(GuardBytes(s, r), view.meta) == s.offers[x]
  {
    var s := states[i];
    RunKeepsInv(states, events, i);
    assert ReaderOk(s, s.readers[r]);
    HolderExcludesWriter(s, r);
    x := StoredWasOffered(s, s.readers[r].view.id);
  }

  /** Histories only grow, and a guard is kept as it is until it is dropped. */
  lemma StepIsMonotone(s: State, e: Event, s': State, r: nat)
    requires Inv(s) && Step(s, e, s')
    ensures s'.config == s.config && s.stored <= s'.stored && s.offers <= s'.offers && s.results <= s'.results
    ensures s.writeSeq <= s'.writeSeq
    ensures r in s.readers && s.readers[r].Done? ==> r in s'.readers && s'.readers[r] == s.readers[r]
    ensures r in s.readers && s.readers[r].Holding? ==>
              r in s'.readers && (s'.readers[r] == s.readers[r] || (s'.readers[r].Done? && e == DropGuard(r)))
  {
  }

  lemma {:induction false} GuardIsKept(states: seq<State>, events: seq<Event>, i: nat, j: nat, r: nat)
    requires IsRun(states, events) && i <= j < |states|
    requires r in states[i].readers && states[i].readers[r].Holding?
    ensures states[j].config == states[i].config && states[i].stored <= states[j].stored
    ensures r in states[j].readers
    ensures states[j].readers[r] == states[i].readers[r] || states[j].readers[r].Done?
  {
    hide Inv, Step, Init, Uncrowded;
    if i < j {
      GuardIsKept(states, events, i, j - 1, r);
      RunKeepsInv(states, events, j - 1);
      StepIsMonotone(states[j - 1], events[j - 1], states[j], r);
    }
  }

  /** What a guard shows never changes while it lives, whatever runs in between. */
  lemma GuardIsStable(states: seq<State>, events: seq<Event>, i: nat, j: nat, r: nat)
    requires IsRun(states, events) && i <= j < |states|
    requires r in states[i].readers && states[i].readers[r].Holding?
    requires r in states[j].readers && states[j].readers[r].Holding?
    ensures Shape(states[i]) && Shape(states[j])
    ensures states[j].readers[r].view == states[i].readers[r].view
    ensures GuardBytes(states[j], r) == GuardBytes(states[i], r)
  {
    hide IsRun, CopyProgress, HistoryExact, CountsExact;
    GuardIsKept(states, events, i, j, r);
    RunKeepsInv(states, events, i);
    RunKeepsInv(states, events, j);
    var s, s', id := states[i], states[j], states[i].readers[r].view.id;
    assert ReaderOk(s, s.readers[r]) && ReaderOk(s', s'.readers[r]);
    HolderExcludesWriter(s, r);
    HolderExcludesWriter(s', r);
    assert s.stored[id - 1] == s'.stored[id - 1];
  }

  /** Published ids are 1, 2, 3, ... without a gap, drops notwithstanding; published and
      dropped calls add up; a drop is never blamed on the writer; and each of the last
      `capacity` stored ids is found in its own slot. */
  lemma IdsAreConsecutive(states: seq<State>, events: seq<Event>, i: nat)
    requires IsRun(states, events) && i < |states|
    ensures var s := states[i];
            && Shape(s)
            && PublishedIds(s.results) == seq(s.writeSeq, n requires 0 <= n < s.writeSeq => n + 1)
            && s.writeSeq + s.dropped + One(!s.producer.Idle?) == |s.offers|
            && s.writeSeq <= |s.stored| <= s.writeSeq + 1
            && (forall x | 0 <= x < |s.results| && s.results[x].Dropped? :: s.results[x].reason.HeldByReaders?)
            && (forall id | 1 <= id <= |s.stored| < id + s.config.capacity ::
                  s.slots[SlotOf(s.config, id)].frameId == id)
  {
    var s := states[i];
    RunKeepsInv(states, events, i);
    forall id | 1 <= id <= |s.stored| < id + s.config.capacity
      ensures s.slots[SlotOf(s.config, id)].frameId == id
    {
      SameRemainder(id, s.slots[SlotOf(s.config, id)].frameId, s.config.capacity);
    }
  }

  /** The id in a slot never goes back. */
  lemma FrameIdsGrow(s: State, e: Event, s': State, k: nat)
    requires Inv(s) && Step(s, e, s') && k < |s.slots|
    ensures |s'.slots| == |s.slots| && s.slots[k].frameId <= s'.slots[k].frameId
  {
    if s.producer.StoringId? && e.ProducerStep? && k == SlotOf(s.config, s.producer.id) {
      assert s.slots[k].frameId <= |s.stored|;
    }
  }

  lemma {:induction false} FrameIdsGrowAlong(states: seq<State>, events: seq<Event>, i: nat, j: nat, k: nat)
    requires IsRun(states, events) && i <= j < |states| && k < |states[i].slots|
    ensures |states[j].slots| == |states[i].slots| && states[j].config == states[i].config
    ensures states[i].slots[k].frameId <= states[j].slots[k].frameId
  {
    hide Inv, Step, Init, Uncrowded;
    if i < j {
      FrameIdsGrowAlong(states, events, i, j - 1, k);
      RunKeepsInv(states, events, j - 1);
      FrameIdsGrow(states[j - 1], events[j - 1], states[j], k);
      StepIsMonotone(states[j - 1], events[j - 1], states[j], k);
    }
  }

  /** A guard from next_after(last) carries id last + 1 and no other. */
  lemma NextAfterGivesSuccessor(states: seq<State>, events: seq<Event>, i: nat, r: nat)
    requires IsRun(states, events) && i < |states|
    requires r in states[i].readers && states[i].readers[r].Holding? && states[i].readers[r].call.NextAfter?
    ensures states[i].readers[r].view.id == Want(states[i].readers[r].call.last)
  {
    RunKeepsInv(states, events, i);
    assert ReaderOk(states[i], states[i].readers[r]);
  }

  /** TooFarBehind is final: the frame asked for was published, its slot holds a newer
      one, and so it will at every later point of the run. */
  lemma TooFarBehindIsFinal(states: seq<State>, events: seq<Event>, i: nat, j: nat, r: nat)
    requires IsRun(states, events) && i <= j < |states|
    requires r in states[i].readers && states[i].readers[r].Done? && states[i].readers[r].outcome.TooFarBehind?
    ensures var s, last := states[i], states[i].readers[r].outcome.lastSeen;
            && Shape(s) && Shape(states[j]) && states[j].config == s.config
            && s.readers[r].call == NextAfter(last)
            && Want(last) + s.config.capacity <= s.readers[r].outcome.latest <= s.writeSeq
            && (exists x :: 0 <= x < |s.results| && s.results[x] == Published(Want(last)))
            && states[j].slots[SlotOf(s.config, Want(last))].frameId > Want(last)
  {
    hide IsRun, Step;
    RunKeepsInv(states, events, i);
    RunKeepsInv(states, events, j);
    var s := states[i];
    var x := BehindMeansOverwritten(s, r);
    FrameIdsGrowAlong(states, events, i, j, SlotOf(s.config, Want(s.readers[r].outcome.lastSeen)));
  }

  lemma BehindMeansOverwritten(s: State, r: nat) returns (x: nat)
    requires Inv(s) && r in s.readers && s.readers[r].Done? && s.readers[r].outcome.TooFarBehind?
    ensures var want := Want(s.readers[r].outcome.lastSeen);
            && s.readers[r].call == NextAfter(s.readers[r].outcome.lastSeen)
            && want + s.config.capacity <= s.readers[r].outcome.latest <= s.writeSeq
            && x < |s.results| && s.results[x] == Published(want)
            && s.slots[SlotOf(s.config, want)].frameId > want
  {
    hide SlotsShowFrames, CopyProgress, CountsExact;
    assert ReaderOk(s, s.readers[r]);
    var want, c := Want(s.readers[r].outcome.lastSeen), s.config;
    x := PublishedIdAt(s.results, PublishedIds(s.results), want - 1);
    AddPeriod(want, c.capacity);
    assert s.slots[SlotOf(c, want + c.capacity)].frameId >= want + c.capacity;
  }

  /** latest never goes back before the write_seq it sampled, stays in that frame's
      slot, and runs ahead of write_seq by at most one. */
  lemma LatestIsFresh(states: seq<State>, events: seq<Event>, i: nat, r: nat)
    requires IsRun(states, events) && i < |states|
    requires r in states[i].readers && states[i].readers[r].Holding? && states[i].readers[r].call.Latest?
    ensures var s, reader := states[i], states[i].readers[r];
            && Shape(s)
            && 1 <= reader.sampled <= reader.view.id <= s.writeSeq + 1
            && SlotOf(s.config, reader.view.id) == SlotOf(s.config, reader.sampled)
  {
    RunKeepsInv(states, events, i);
    assert ReaderOk(states[i], states[i].readers[r]);
  }
}
