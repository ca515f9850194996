/** Nobody waits for anybody: each call on the ring returns within a fixed number of its own
    steps, whatever the others do in between. */
module RingProgress {
  import opened Ring

  /** How many steps the producer has left, at most. */
  function StepsLeft(s: State): nat
    requires Shape(s)
  {
    match s.producer
    case Idle => 0
    case Claiming(_) => s.config.frameSize + 8
    case Refused(_) => 2
    case CountingDrop(_, _) => 1
    case Copying(_, n) => s.config.frameSize - n + 7
    case WritingMeta(_, f) => 7 - f
    case StoringId(_) => 3
    case Releasing(_) => 2
    case StoringSeq(_) => 1
  }

  /** Steps that one more try of next_after takes, at most. */
  const TRY_STEPS: nat := 2 * ACQUIRE_SPINS + 4

  /** Steps left when a new try begins. The tries of `latest` are not used up. */
  function SamplingLeft(call: Call, tries: nat): nat {
    match call
    case Latest => TRY_STEPS + 6
    case NextAfter(_) => tries * TRY_STEPS + 6
  }

  /** Steps left when the current try has failed. */
  function FailedLeft(call: Call, tries: nat): nat {
    match call
    case Latest => 6
    case NextAfter(_) => SamplingLeft(call, tries)
  }

  /** How many steps a reader has left, at most. */
  function ReadsLeft(r: Reader): nat {
    match r
    case Sampling(call, tries) => SamplingLeft(call, tries)
    case Spinning(call, _, tries, spins) => FailedLeft(call, tries) + 3 + 2 * spins
    case Swapping(call, _, tries, spins, _) => FailedLeft(call, tries) + 4 + 2 * spins
    case Checking(call, _, tries) => FailedLeft(call, tries) + 2
    case BackingOut(call, _, tries) => SamplingLeft(call, tries) + 1
    case Reading(_, _, _, f, _) => if f <= 4 then 5 - f else 1
    case Holding(_, _, _) => 0
    case Done(_, _) => 0
  }

  /** Every step of a call brings it nearer to its return. */
  lemma ProducerAdvances(s: State)
    requires Shape(s) && !s.producer.Idle?
    ensures Shape(AdvanceProducer(s)) && StepsLeft(AdvanceProducer(s)) < StepsLeft(s)
  {
  }

  lemma ReaderAdvances(s: State, r: Reader, slot: Slot)
    requires !r.Holding? && !r.Done?
    ensures ReadsLeft(AdvanceReader(s, r, slot)) < ReadsLeft(r)
  {
    assert r.Sampling? && r.call.NextAfter? && r.tries > 0 ==>
        SamplingLeft(r.call, r.tries) == SamplingLeft(r.call, r.tries - 1) + TRY_STEPS;
  }

  // ---- Whole runs ----

  /** A step belongs to the producer, to one reader, or begins a call. */
  lemma OthersStay(s: State, e: Event, s': State, r: nat)
    requires Step(s, e, s') && Shape(s')
    ensures !s.producer.Idle? && !e.ProducerStep? ==> s'.producer == s.producer
    ensures s'.config == s.config
    ensures r in s.readers && e != ReaderStep(r) ==>
              r in s'.readers && (s'.readers[r] == s.readers[r] || (e == DropGuard(r) && s'.readers[r].Done?))
    ensures e == ReaderStep(r) ==>
              r in s'.readers && s'.readers[r] == AdvanceReader(s, s.readers[r], s.slots[Home(s.config, s.readers[r])])
  {
  }

  lemma {:induction false} ShapeAlong(states: seq<State>, events: seq<Event>, i: nat)
    requires IsRun(states, events) && i < |states|
    ensures Shape(states[i])
  {
    hide Uncrowded;
    if i > 0 {
      ShapeAlong(states, events, i - 1);
      assert Step(states[i - 1], events[i - 1], states[i]);
      StepKeepsShape(states[i - 1], events[i - 1], states[i]);
    } else {
      assert Init(states[0]);
    }
  }

  lemma StepKeepsShape(s: State, e: Event, s': State)
    requires Step(s, e, s')
    ensures Shape(s')
  {
  }

  function ProducerSteps(events: seq<Event>, i: nat, j: nat): nat
    requires i <= j <= |events|
  {
    if i == j then 0
    else ProducerSteps(events, i, j - 1) + if events[j - 1].ProducerStep? then 1 else 0
  }

  function OwnSteps(events: seq<Event>, r: nat, i: nat, j: nat): nat
    requires i <= j <= |events|
  {
    if i == j then 0
    else OwnSteps(events, r, i, j - 1) + if events[j - 1] == ReaderStep(r) then 1 else 0
  }

  /** The producer never waits: while one publish call runs, from point i to point j of any
      run, its own steps and those it has left never add up to more than it had left. */
  lemma {:induction false} PublishReturns(states: seq<State>, events: seq<Event>, i: nat, j: nat)
    requires IsRun(states, events) && i <= j < |states|
    requires forall n | i <= n <= j :: !states[n].producer.Idle?
    ensures Shape(states[i]) && Shape(states[j])
    ensures ProducerSteps(events, i, j) + StepsLeft(states[j]) <= StepsLeft(states[i])
    ensures 1 <= StepsLeft(states[j]) && StepsLeft(states[i]) <= states[i].config.frameSize + 8
    decreases j
  {
    hide Init, Uncrowded, AdvanceProducer, Step;
    ShapeAlong(states, events, i);
    ShapeAlong(states, events, j);
    if i < j {
      PublishReturns(states, events, i, j - 1);
      var (s, e, s') := (states[j - 1], events[j - 1], states[j]);
      assert Step(s, e, s');
      StepIs(s, e, s');
      OthersStay(s, e, s', 0);
      if e.ProducerStep? {
        ProducerAdvances(s);
      }
    }
  }

  lemma StepIs(s: State, e: Event, s': State)
    requires Step(s, e, s')
    ensures Shape(s) && Enabled(s, e) && s' == Apply(s, e)
    ensures e.ProducerStep? ==> s' == AdvanceProducer(s)
  {
  }

  /** No reader waits: between any two points of any run its own steps and those it has left
      never add up to more than it had left. */
  lemma {:induction false} ReaderReturns(states: seq<State>, events: seq<Event>, r: nat, i: nat, j: nat)
    requires IsRun(states, events) && i <= j < |states| && r in states[i].readers
    ensures r in states[j].readers
    ensures OwnSteps(events, r, i, j) + ReadsLeft(states[j].readers[r]) <= ReadsLeft(states[i].readers[r])
    decreases j
  {
    hide Init, Uncrowded, AdvanceReader, Step, Apply;
    if i < j {
      ReaderReturns(states, events, r, i, j - 1);
      var (s, e, s') := (states[j - 1], events[j - 1], states[j]);
      assert Step(s, e, s');
      ShapeAlong(states, events, j);
      StepIs(s, e, s');
      OthersStay(s, e, s', r);
      if e == ReaderStep(r) {
        ReaderAdvances(s, s.readers[r], s.slots[Home(s.config, s.readers[r])]);
      }
    }
  }

  /** Hence the bounds of the calls: next_after has a guard or an answer after at most
      256 times 132 plus 6 of its own steps, latest after at most 138. */
  lemma CallReturns(states: seq<State>, events: seq<Event>, r: nat, i: nat, j: nat)
    requires IsRun(states, events) && i < j < |states| && events[i].Start? && events[i].reader == r
    ensures r in states[j].readers
    ensures var bound := if events[i].call.Latest? then 138 else 256 * 132 + 6;
            && OwnSteps(events, r, i + 1, j) <= bound
            && (OwnSteps(events, r, i + 1, j) == bound ==> states[j].readers[r].Holding? || states[j].readers[r].Done?)
  {
    hide Init, Uncrowded;
    assert Step(states[i], events[i], states[i + 1]);
    assert states[i + 1].readers[r] == Sampling(events[i].call, NEXT_TRIES);
    ReaderReturns(states, events, r, i + 1, j);
    NothingLeft(states[j].readers[r]);
  }

  lemma NothingLeft(r: Reader)
    ensures ReadsLeft(r) == 0 ==> r.Holding? || r.Done?
  {
  }
}
