/** What an answer of next_after is worth when others run in between: "up to date" is wrong
    only if every single try was disturbed. */
module RingAnswers {
  import opened Ring
  import opened RingInvariant
  import opened RingProgress

  /** The slot that next_after(last) goes for. */
  function Wanted(c: Config, last: nat): nat
    requires c.capacity >= 1
  {
    SlotOf(c, Want(last))
  }

  /** Step e disturbs reader r: it is r's own and finds the slot locked or with another frame,
      or it is someone else's and changes the slot's counter. */
  ghost predicate Disturbs(s: State, e: Event, s': State, r: nat, last: nat)
    requires Shape(s) && Shape(s') && s'.config == s.config
  {
    var k := Wanted(s.config, last);
    if e == ReaderStep(r) then s.slots[k].refCount == WRITER_LOCK || s.slots[k].frameId != Want(last)
    else s'.slots[k].refCount != s.slots[k].refCount
  }

  /** The step ends a failed try of reader r. */
  predicate Fails(s: State, e: Event, s': State, r: nat) {
    && e == ReaderStep(r) && r in s.readers && r in s'.readers
    && !s.readers[r].Sampling? && s'.readers[r].Sampling?
  }

  ghost function Disturbances(states: seq<State>, events: seq<Event>, r: nat, last: nat, i: nat, j: nat): nat
    requires IsRun(states, events) && i <= j < |states|
  {
    if i == j then 0
    else
      ShapeAlong(states, events, j - 1);
      ShapeAlong(states, events, j);
      OthersStay(states[j - 1], events[j - 1], states[j], r);
      Disturbances(states, events, r, last, i, j - 1)
      + if Disturbs(states[j - 1], events[j - 1], states[j], r, last) then 1 else 0
  }

  ghost function Failures(states: seq<State>, events: seq<Event>, r: nat, i: nat, j: nat): nat
    requires |states| == |events| + 1 && i <= j < |states|
  {
    if i == j then 0
    else Failures(states, events, r, i, j - 1) + if Fails(states[j - 1], events[j - 1], states[j], r) then 1 else 0
  }

  /** Where the reader stands when it began its current tries with `tries` of them left, and
      so many have failed since. */
  ghost predicate TriesCount(reader: Reader, last: nat, tries: nat, failures: nat) {
    && reader.call == NextAfter(last)
    && match reader
       case Sampling(_, t) => failures + t == tries
       case Spinning(_, _, t, _) => failures + t + 1 == tries
       case Swapping(_, _, t, _, _) => failures + t + 1 == tries
       case Checking(_, _, t) => failures + t + 1 == tries
       case BackingOut(_, _, t) => failures + t + 1 == tries
       case Reading(_, _, _, _, _) => failures < tries
       case Holding(_, _, _) => failures < tries
       case Done(_, outcome) => if outcome.UpToDate? then failures == tries else failures < tries
  }

  /** What the current try has still not been disturbed by, it cannot fail for. */
  ghost predicate Accounted(s: State, reader: Reader, last: nat, failures: nat, disturbances: nat)
    requires Shape(s)
  {
    var slot := s.slots[Wanted(s.config, last)];
    match reader
    case Spinning(_, _, _, spins) => failures + One(spins == 0) <= disturbances
    case Swapping(_, _, _, _, cur) => failures + One(cur != slot.refCount) <= disturbances
    case Checking(_, _, _) => failures + One(slot.frameId != Want(last)) <= disturbances
    case BackingOut(_, _, _) => failures + 1 <= disturbances
    case _ => failures <= disturbances
  }

  /** The reader's own step. */
  lemma OwnStepAccounted(s: State, e: Event, s': State, r: nat, last: nat, tries: nat, f: nat, d: nat)
    requires Inv(s) && Step(s, e, s') && Shape(s') && s'.config == s.config && e == ReaderStep(r)
    requires Want(last) <= s.writeSeq
    requires TriesCount(s.readers[r], last, tries, f) && Accounted(s, s.readers[r], last, f, d)
    ensures r in s'.readers
    ensures var (f', d') := (f + One(Fails(s, e, s', r)), d + One(Disturbs(s, e, s', r, last)));
            TriesCount(s'.readers[r], last, tries, f') && Accounted(s', s'.readers[r], last, f', d')
  {
    hide CountsExact, SlotsNewest, SlotsShowFrames, CopyProgress, HistoryExact;
    assert ReaderOk(s, s.readers[r]);
  }

  /** A reader that counts keeps its slot's id as it is. */
  lemma HeldIdStays(s: State, e: Event, s': State, r: nat)
    requires Inv(s) && Step(s, e, s') && Shape(s') && r in s.readers && s.readers[r].Counts()
    ensures var k := Home(s.config, s.readers[r]); k < |s'.slots| && s'.slots[k].frameId == s.slots[k].frameId
  {
    hide CountsExact, SlotsNewest, SlotsShowFrames, CopyProgress, HistoryExact, ReadersOk, Holders;
    HolderExcludesWriter(s, r);
  }

  /** Anybody else's. */
  lemma OtherStepAccounted(s: State, e: Event, s': State, r: nat, last: nat, tries: nat, f: nat, d: nat)
    requires Inv(s) && Step(s, e, s') && Shape(s') && s'.config == s.config && e != ReaderStep(r)
    requires r in s.readers
    requires TriesCount(s.readers[r], last, tries, f) && Accounted(s, s.readers[r], last, f, d)
    ensures r in s'.readers && !Fails(s, e, s', r)
    ensures var d' := d + One(Disturbs(s, e, s', r, last));
            TriesCount(s'.readers[r], last, tries, f) && Accounted(s', s'.readers[r], last, f, d')
  {
    hide Inv, Step;
    OthersStay(s, e, s', r);
    if s.readers[r].Checking? {
      HeldIdStays(s, e, s', r);
    }
    if e == DropGuard(r) {
      DropNeedsGuard(s, e, s', r);
    }
  }

  lemma DropNeedsGuard(s: State, e: Event, s': State, r: nat)
    requires Step(s, e, s') && e == DropGuard(r)
    ensures r in s.readers && s.readers[r].Holding?
    ensures r in s'.readers && s'.readers[r] == Done(s.readers[r].call, GuardDropped(s.readers[r].view))
  {
  }

  /** Reader r has `tries` tries left at point i, and the id it wants was published. */
  ghost predicate Asks(states: seq<State>, i: nat, r: nat, last: nat, tries: nat) {
    && i < |states| && r in states[i].readers
    && states[i].readers[r] == Sampling(NextAfter(last), tries)
    && Want(last) <= states[i].writeSeq
  }

  /** One more step of the reader or of anyone else. */
  lemma StepAccounted(s: State, e: Event, s': State, r: nat, last: nat, tries: nat, f: nat, d: nat)
    requires Inv(s) && Step(s, e, s') && Shape(s') && s'.config == s.config && r in s.readers
    requires Want(last) <= s.writeSeq
    requires TriesCount(s.readers[r], last, tries, f) && Accounted(s, s.readers[r], last, f, d)
    ensures r in s'.readers && s.writeSeq <= s'.writeSeq
    ensures var (f', d') := (f + One(Fails(s, e, s', r)), d + One(Disturbs(s, e, s', r, last)));
            TriesCount(s'.readers[r], last, tries, f') && Accounted(s', s'.readers[r], last, f', d')
  {
    hide Inv, Step, TriesCount, Accounted, Fails, Disturbs;
    SeqGrows(s, e, s');
    if e == ReaderStep(r) {
      OwnStepAccounted(s, e, s', r, last, tries, f, d);
    } else {
      OtherStepAccounted(s, e, s', r, last, tries, f, d);
    }
  }

  lemma IsStep(states: seq<State>, events: seq<Event>, j: nat)
    requires IsRun(states, events) && j < |events|
    ensures Step(states[j], events[j], states[j + 1]) && Shape(states[j]) && Shape(states[j + 1])
    ensures states[j + 1].config == states[j].config
  {
    hide Init, Uncrowded;
    ShapeAlong(states, events, j);
    ShapeAlong(states, events, j + 1);
    OthersStay(states[j], events[j], states[j + 1], 0);
  }

  /** From there on every failed try is paid for by a step that disturbed it. */
  lemma {:induction false} TriesAccounted(states: seq<State>, events: seq<Event>, i: nat, j: nat, r: nat, last: nat,
                                          tries: nat)
    requires IsRun(states, events) && i <= j < |states| && Asks(states, i, r, last, tries)
    ensures r in states[j].readers && Want(last) <= states[j].writeSeq && Shape(states[j])
    ensures TriesCount(states[j].readers[r], last, tries, Failures(states, events, r, i, j))
    ensures Accounted(states[j], states[j].readers[r], last, Failures(states, events, r, i, j),
                      Disturbances(states, events, r, last, i, j))
    decreases j
  {
    hide Inv, Init, Uncrowded, Step, TriesCount, Accounted, Fails, Disturbs;
    ShapeAlong(states, events, j);
    if i == j {
      StartsAccounted(states[i], r, last, tries);
    } else {
      TriesAccounted(states, events, i, j - 1, r, last, tries);
      RunKeepsInv(states, events, j - 1);
      IsStep(states, events, j - 1);
      StepAccounted(states[j - 1], events[j - 1], states[j], r, last, tries,
                    Failures(states, events, r, i, j - 1), Disturbances(states, events, r, last, i, j - 1));
    }
  }

  lemma StartsAccounted(s: State, r: nat, last: nat, tries: nat)
    requires Shape(s) && r in s.readers && s.readers[r] == Sampling(NextAfter(last), tries)
    ensures TriesCount(s.readers[r], last, tries, 0) && Accounted(s, s.readers[r], last, 0, 0)
  {
  }

  lemma SeqGrows(s: State, e: Event, s': State)
    requires Inv(s) && Step(s, e, s')
    ensures s.writeSeq <= s'.writeSeq
  {
    hide CountsExact, SlotsNewest, SlotsShowFrames, CopyProgress, HistoryExact, ReadersOk;
  }

  /** Whatever runs in between: a call for a published frame that has come to its end says
      "up to date" exactly when every one of its tries has failed, and no more tries fail
      than steps disturb it. */
  lemma UpToDateExactly(states: seq<State>, events: seq<Event>, i: nat, j: nat, r: nat, last: nat, tries: nat)
    requires IsRun(states, events) && i <= j < |states| && Asks(states, i, r, last, tries)
    ensures r in states[j].readers
    ensures states[j].readers[r].Holding? || states[j].readers[r].Done? ==>
              (states[j].readers[r] == Done(NextAfter(last), UpToDate) <==> Failures(states, events, r, i, j) == tries)
    ensures Failures(states, events, r, i, j) <= Disturbances(states, events, r, last, i, j)
  {
    hide IsRun;
    TriesAccounted(states, events, i, j, r, last, tries);
  }

  /** Hence "up to date" can be believed: of a call disturbed fewer than 256 times it means
      that the frame was not published when the call began. */
  lemma UndisturbedIsTruthful(states: seq<State>, events: seq<Event>, i: nat, j: nat, r: nat, last: nat)
    requires IsRun(states, events) && i < j < |states| && events[i] == Start(r, NextAfter(last))
    requires r in states[j].readers && states[j].readers[r] == Done(NextAfter(last), UpToDate)
    requires Disturbances(states, events, r, last, i + 1, j) < 256
    ensures states[i].writeSeq < Want(last)
  {
    hide Uncrowded, Init;
    assert Step(states[i], events[i], states[i + 1]);
    if Want(last) <= states[i].writeSeq {
      assert Asks(states, i + 1, r, last, NEXT_TRIES);
      UpToDateExactly(states, events, i + 1, j, r, last, NEXT_TRIES);
    }
  }

  /** A try cannot fail undisturbed: while the slot is free of the writer, keeps the wanted
      frame, and nobody else's step changes its counter, no try ends in failure. */
  lemma {:induction false} NoTryFailsUndisturbed(states: seq<State>, events: seq<Event>, i: nat, j: nat, r: nat,
                                                 last: nat, tries: nat)
    requires IsRun(states, events) && i <= j < |states| && Asks(states, i, r, last, tries)
    requires forall n | i <= n < j :: Undisturbed(states[n], events[n], states[n + 1], r, last)
    ensures Failures(states, events, r, i, j) == 0
  {
    hide Undisturbed, Disturbs, Init, Uncrowded, Step;
    UpToDateExactly(states, events, i, j, r, last, tries);
    NoDisturbances(states, events, r, last, i, j);
  }

  ghost predicate Undisturbed(s: State, e: Event, s': State, r: nat, last: nat) {
    && Shape(s) && Shape(s') && s'.config == s.config
    && var k := Wanted(s.config, last);
       && s.slots[k].refCount != WRITER_LOCK && s.slots[k].frameId == Want(last)
       && (e != ReaderStep(r) ==> s'.slots[k].refCount == s.slots[k].refCount)
  }

  lemma {:induction false} NoDisturbances(states: seq<State>, events: seq<Event>, r: nat, last: nat, i: nat, j: nat)
    requires IsRun(states, events) && i <= j < |states|
    requires forall n | i <= n < j :: Undisturbed(states[n], events[n], states[n + 1], r, last)
    ensures Disturbances(states, events, r, last, i, j) == 0
    decreases j
  {
    hide Init, Step, Uncrowded, Undisturbed, Disturbs;
    if i < j {
      NoDisturbances(states, events, r, last, i, j - 1);
      assert Undisturbed(states[j - 1], events[j - 1], states[j - 1 + 1], r, last);
      UndisturbedIs(states[j - 1], events[j - 1], states[j], r, last);
    }
  }

  lemma UndisturbedIs(s: State, e: Event, s': State, r: nat, last: nat)
    requires Undisturbed(s, e, s', r, last)
    ensures !Disturbs(s, e, s', r, last)
  {
  }

  // ---- The answers of latest ----

  /** Step e costs reader r a spin on slot k: it is r's own and finds the slot locked, or it is
      someone else's and changes the counter. */
  ghost predicate Costs(s: State, e: Event, s': State, r: nat, k: nat)
    requires Shape(s) && Shape(s') && s'.config == s.config && k < s.config.capacity
  {
    if e == ReaderStep(r) then s.slots[k].refCount == WRITER_LOCK
    else s'.slots[k].refCount != s.slots[k].refCount
  }

  ghost function CostsBetween(states: seq<State>, events: seq<Event>, r: nat, k: nat, i: nat, j: nat): nat
    requires IsRun(states, events) && i <= j < |states| && k < states[i].config.capacity
    ensures states[j].config == states[i].config
  {
    if i == j then 0
    else
      var before := CostsBetween(states, events, r, k, i, j - 1);
      IsStep(states, events, j - 1);
      before + if Costs(states[j - 1], events[j - 1], states[j], r, k) then 1 else 0
  }

  /** How a call of latest that sampled q stands when it has been cost so many spins. */
  ghost predicate SpinsCount(s: State, reader: Reader, q: nat, costs: nat)
    requires Shape(s)
  {
    && reader.call == Latest
    && match reader
       case Sampling(_, _) => false
       case Spinning(_, sampled, _, spins) => sampled == q && spins <= ACQUIRE_SPINS <= spins + costs
       case Swapping(_, sampled, _, spins, cur) =>
         sampled == q
         && spins < ACQUIRE_SPINS <= spins + 1 + costs - One(cur != s.slots[SlotOf(s.config, q)].refCount)
       case Checking(_, sampled, _) => sampled == q
       case BackingOut(_, _, _) => false
       case Reading(_, sampled, _, _, _) => sampled == q
       case Holding(_, sampled, _) => sampled == q
       case Done(_, outcome) => outcome.Nothing? ==> costs >= ACQUIRE_SPINS
  }

  lemma SpinsCountStep(s: State, e: Event, s': State, r: nat, q: nat, d: nat)
    requires Inv(s) && Step(s, e, s') && Shape(s') && s'.config == s.config && r in s.readers
    requires SpinsCount(s, s.readers[r], q, d)
    ensures r in s'.readers
    ensures SpinsCount(s', s'.readers[r], q, d + One(Costs(s, e, s', r, SlotOf(s.config, q))))
  {
    hide CountsExact, IdsExact, SlotsNewest, SlotsShowFrames, CopyProgress, HistoryExact, ReadersOk;
    OthersStay(s, e, s', r);
    if e == DropGuard(r) {
      DropNeedsGuard(s, e, s', r);
    }
  }

  lemma {:induction false} SpinsCountAlong(states: seq<State>, events: seq<Event>, i: nat, j: nat, r: nat, q: nat)
    requires IsRun(states, events) && i <= j < |states| && r in states[i].readers && Shape(states[i])
    requires states[i].readers[r].Spinning? && states[i].readers[r].call.Latest?
    requires states[i].readers[r].sampled == q && states[i].readers[r].spins == ACQUIRE_SPINS
    ensures r in states[j].readers && Shape(states[j])
    ensures SpinsCount(states[j], states[j].readers[r], q,
                       CostsBetween(states, events, r, SlotOf(states[i].config, q), i, j))
    decreases j
  {
    hide Inv, Init, Uncrowded, Step, Costs, SpinsCount;
    ShapeAlong(states, events, j);
    if i == j {
      SpinsCountStarts(states[i], states[i].readers[r]);
    } else {
      SpinsCountAlong(states, events, i, j - 1, r, q);
      var before := CostsBetween(states, events, r, SlotOf(states[i].config, q), i, j - 1);
      RunKeepsInv(states, events, j - 1);
      IsStep(states, events, j - 1);
      SpinsCountStep(states[j - 1], events[j - 1], states[j], r, q, before);
    }
  }

  lemma SpinsCountStarts(s: State, reader: Reader)
    requires Shape(s) && reader.Spinning? && reader.call.Latest? && reader.spins == ACQUIRE_SPINS
    ensures SpinsCount(s, reader, reader.sampled, 0)
  {
  }

  /** Latest gives up only after 64 lost spins: a call that has sampled a published id and
      ends with nothing was cost every one of them, by the writer in its slot or by someone
      else's change of the counter. */
  lemma NothingNeedsLostSpins(states: seq<State>, events: seq<Event>, i: nat, j: nat, r: nat)
    requires IsRun(states, events) && i < j < |states| && r in states[i].readers && Shape(states[i])
    requires events[i] == ReaderStep(r) && states[i].readers[r].Sampling? && states[i].readers[r].call.Latest?
    requires states[i].writeSeq >= 1
    requires r in states[j].readers && states[j].readers[r] == Done(Latest, Nothing)
    ensures Shape(states[i + 1])
    ensures CostsBetween(states, events, r, SlotOf(states[i + 1].config, states[i].writeSeq), i + 1, j) >= 64
  {
    hide Init, Uncrowded, Inv;
    IsStep(states, events, i);
    SampleIs(states[i], events[i], states[i + 1], r);
    SpinsCountAlong(states, events, i + 1, j, r, states[i].writeSeq);
  }

  lemma SampleIs(s: State, e: Event, s': State, r: nat)
    requires Step(s, e, s') && e == ReaderStep(r) && r in s.readers && s.readers[r].Sampling?
    requires s.readers[r].call.Latest?
    ensures r in s'.readers
    ensures s.writeSeq == 0 <==> s'.readers[r] == Done(Latest, Nothing)
    ensures s.writeSeq >= 1 ==>
              s'.readers[r] == Spinning(Latest, s.writeSeq, s.readers[r].tries, ACQUIRE_SPINS)
  {
  }
}
