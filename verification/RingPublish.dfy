/** When a publish call succeeds, over every run of the ring. */
module RingPublish {
  import opened Ring
  import opened RingInvariant
  import opened RingProgress

  /** The producer is refused exactly by readers: the slot it goes for is taken from it if and
      only if somebody is inside at that very step. */
  lemma RefusedExactly(states: seq<State>, events: seq<Event>, i: nat)
    requires IsRun(states, events) && i < |events|
    requires events[i] == ProducerStep && states[i].producer.Claiming?
    ensures Shape(states[i])
    ensures var (s, s') := (states[i], states[i + 1]);
            var k := (s.writeSeq + 1) % s.config.capacity;
            && (s'.producer.Refused? <==> Holders(s, k) != {})
            && (Holders(s, k) == {} ==> k < |s'.slots| && s'.slots[k].refCount == WRITER_LOCK)
  {
    hide IdsExact, SlotsNewest, SlotsShowFrames, CopyProgress, HistoryExact, ReadersOk, Holders;
    RunKeepsInv(states, events, i);
    assert Step(states[i], events[i], states[i + 1]);
    ClaimIs(states[i]);
  }

  lemma ClaimIs(s: State)
    requires Inv(s) && s.producer.Claiming?
    ensures var (s', k) := (AdvanceProducer(s), (s.writeSeq + 1) % s.config.capacity);
            && (s'.producer.Refused? <==> Holders(s, k) != {})
            && (!s'.producer.Refused? ==> s'.slots[k].refCount == WRITER_LOCK)
  {
    hide SlotsNewest, SlotsShowFrames, CopyProgress, HistoryExact, ReadersOk, Holders;
    var k := SlotOf(s.config, s.producer.id);
    assert s.slots[k].refCount == |Holders(s, k)|;
  }

  /** A call that got past its claim, or was refused: where it is, or what came of it. The
      call is the one whose result will be number n. */
  ghost predicate OnItsWay(s: State, n: nat, id: nat, claimed: bool) {
    if |s.results| == n then
      if claimed then
        && (s.producer.Copying? || s.producer.WritingMeta? || s.producer.StoringId? || s.producer.Releasing?
            || s.producer.StoringSeq?)
        && s.producer.id == id
      else s.producer.Refused? || s.producer.CountingDrop?
    else
      && |s.results| > n
      && (if claimed then s.results[n] == Published(id) else s.results[n].Dropped?)
  }

  lemma StaysOnItsWay(s: State, e: Event, s': State, n: nat, id: nat, claimed: bool)
    requires Step(s, e, s') && OnItsWay(s, n, id, claimed)
    ensures OnItsWay(s', n, id, claimed)
  {
  }

  lemma {:induction false} OnItsWayAlong(states: seq<State>, events: seq<Event>, i: nat, j: nat, n: nat, id: nat,
                                         claimed: bool)
    requires IsRun(states, events) && i <= j < |states| && OnItsWay(states[i], n, id, claimed)
    ensures OnItsWay(states[j], n, id, claimed)
    decreases j
  {
    hide OnItsWay, Init, Uncrowded, Step;
    if i < j {
      OnItsWayAlong(states, events, i, j - 1, n, id, claimed);
      assert Step(states[j - 1], events[j - 1], states[j]);
      StaysOnItsWay(states[j - 1], events[j - 1], states[j], n, id, claimed);
    }
  }

  /** Over every run: a well-sized call returns Published, with the next id, exactly when
      nobody is inside its slot at the step where it claims it. A frame for a free slot is
      always published. */
  lemma PublishedExactly(states: seq<State>, events: seq<Event>, i: nat, j: nat)
    requires IsRun(states, events) && i < |events| && i < j < |states|
    requires events[i] == ProducerStep && states[i].producer.Claiming?
    requires |states[j].results| > |states[i].results|
    ensures Shape(states[i])
    ensures var (s, result) := (states[i], states[j].results[|states[i].results|]);
            var k := (s.writeSeq + 1) % s.config.capacity;
            && (result == Published(s.writeSeq + 1) <==> Holders(s, k) == {})
            && (result.Dropped? <==> Holders(s, k) != {})
  {
    hide Holders, Init, Uncrowded, Inv;
    var (s, s') := (states[i], states[i + 1]);
    RefusedExactly(states, events, i);
    RunKeepsInv(states, events, i);
    AimsAtNext(s);
    assert Step(s, events[i], s');
    StepIs(s, events[i], s');
    ClaimEndsClaiming(s);
    OnItsWayAlong(states, events, i + 1, j, |s.results|, s.writeSeq + 1, !s'.producer.Refused?);
  }

  lemma AimsAtNext(s: State)
    requires Inv(s) && !s.producer.Idle?
    ensures s.producer.id == s.writeSeq + 1
  {
  }

  lemma ClaimEndsClaiming(s: State)
    requires Shape(s) && s.producer.Claiming?
    ensures OnItsWay(AdvanceProducer(s), |s.results|, s.producer.id, !AdvanceProducer(s).producer.Refused?)
  {
  }

  /** What sets such a call off: a well-sized frame handed over while an id is left. */
  lemma ClaimingExactly(s: State, data: seq<bv8>, ts: nat)
    requires s.producer.Idle?
    ensures BeginPublish(s, data, ts).producer == Claiming(s.writeSeq + 1) <==>
            |data| == s.config.frameSize && s.writeSeq < MAX_ID
    ensures BeginPublish(s, data, ts).producer.Idle? ==> BeginPublish(s, data, ts) == s
  {
  }
}
