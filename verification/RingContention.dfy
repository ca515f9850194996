/** Readers alone can make next_after answer "up to date" about a frame that is there: each
    lost compare-and-swap uses up one spin. */
module RingContention {
  import opened Ring
  import opened RingInvariant
  import opened RingAlone
  import RingProgress

  // ---- Playing events from a state ----

  ghost predicate CanPlay(s: State, events: seq<Event>)
    decreases |events|, 0
  {
    if events == [] then true
    else
      var (front, last) := (events[..|events| - 1], events[|events| - 1]);
      CanPlay(s, front) && Shape(Play(s, front)) && Enabled(Play(s, front), last)
  }

  ghost function Play(s: State, events: seq<Event>): State
    requires CanPlay(s, events)
    decreases |events|, 1
  {
    if events == [] then s else Apply(Play(s, events[..|events| - 1]), events[|events| - 1])
  }

  lemma PlayOne(s: State, events: seq<Event>, e: Event)
    requires CanPlay(s, events) && Shape(Play(s, events)) && Enabled(Play(s, events), e)
    ensures CanPlay(s, events + [e]) && Play(s, events + [e]) == Apply(Play(s, events), e)
  {
    hide Apply;
    assert (events + [e])[..|events|] == events;
  }

  lemma {:induction false} PlayMore(s: State, events: seq<Event>, more: seq<Event>)
    requires CanPlay(s, events) && CanPlay(Play(s, events), more)
    ensures CanPlay(s, events + more) && Play(s, events + more) == Play(Play(s, events), more)
    decreases |more|
  {
    hide Apply;
    if more == [] {
      assert events + more == events;
    } else {
      var (front, last) := (more[..|more| - 1], more[|more| - 1]);
      PlayMore(s, events, front);
      PlayOne(s, events + front, last);
      assert events + more == (events + front) + [last];
    }
  }

  /** Only readers move. */
  predicate ByReaders(events: seq<Event>) {
    forall i | 0 <= i < |events| :: events[i].Start? || events[i].ReaderStep?
  }

  // ---- One lost spin ----

  /** No reader has an id from x on. */
  ghost predicate UnusedFrom(s: State, x: nat) {
    forall y | y in s.readers :: y < x
  }

  /** The slot that next_after(last) wants is free and in its window, and holds its frame. */
  ghost predicate InPlace(s: State, last: nat) {
    && Shape(s) && Want(last) <= s.writeSeq < Want(last) + s.config.capacity
    && s.slots[SlotOf(s.config, Want(last))].frameId == Want(last)
    && s.slots[SlotOf(s.config, Want(last))].refCount < WRITER_LOCK
  }

  /** How often the wanted slot is counted. */
  function CountOf(s: State, last: nat): nat
    requires Shape(s)
  {
    s.slots[SlotOf(s.config, Want(last))].refCount
  }

  ghost predicate Moves(s: State, e: Event, s': State) {
    Shape(s) && Enabled(s, e) && Apply(s, e) == s'
  }

  lemma PlayThree(s: State, e1: Event, s1: State, e2: Event, s2: State, e3: Event, s3: State)
    requires Moves(s, e1, s1) && Moves(s1, e2, s2) && Moves(s2, e3, s3)
    ensures CanPlay(s, [e1, e2, e3]) && Play(s, [e1, e2, e3]) == s3
  {
    hide Apply;
    PlayNothing(s);
    PlayOne(s, [], e1);
    PlayOne(s, [e1], e2);
    PlayOne(s, [e1, e2], e3);
    assert [] + [e1] == [e1] && [e1] + [e2] == [e1, e2] && [e1, e2] + [e3] == [e1, e2, e3];
  }

  /** A new reader, x, comes for the frame and loads the slot's counter. */
  lemma Approach(s: State, x: nat, last: nat)
    requires InPlace(s, last) && x !in s.readers
    ensures var (call, q) := (NextAfter(last), s.writeSeq);
            var n := s.slots[SlotOf(s.config, Want(last))].refCount;
            var events := [Start(x, call), ReaderStep(x), ReaderStep(x)];
            CanPlay(s, events)
            && Play(s, events) == At(s, x, Swapping(call, q, NEXT_TRIES - 1, ACQUIRE_SPINS - 1, n))
  {
    hide Apply, Enabled;
    var (call, q, n) := (NextAfter(last), s.writeSeq, s.slots[SlotOf(s.config, Want(last))].refCount);
    var (b1, b2) := (Sampling(call, NEXT_TRIES), Spinning(call, q, NEXT_TRIES - 1, ACQUIRE_SPINS));
    var b3 := Swapping(call, q, NEXT_TRIES - 1, ACQUIRE_SPINS - 1, n);
    StartIs(s, x, call);
    OnlyMoves(s, x, b1, b2);
    OnlyMoves(s, x, b2, b3);
    CanStep(At(s, x, b1), x);
    CanStep(At(s, x, b2), x);
    PlayThree(s, Start(x, call), At(s, x, b1), ReaderStep(x), At(s, x, b2), ReaderStep(x), At(s, x, b3));
  }

  lemma CanStep(s: State, r: nat)
    requires r in s.readers && !s.readers[r].Holding? && !s.readers[r].Done?
    ensures Enabled(s, ReaderStep(r))
  {
  }

  /** Then r loads it too, x takes the slot, and r's swap fails. */
  lemma Overtake(s: State, r: nat, x: nat, last: nat, tries: nat, spins: nat)
    requires InPlace(s, last) && r != x && 1 <= spins
    ensures var (call, q, k) := (NextAfter(last), s.writeSeq, SlotOf(s.config, Want(last)));
            var n := s.slots[k].refCount;
            var s0 := At(At(s, r, Spinning(call, q, tries, spins)), x,
                         Swapping(call, q, NEXT_TRIES - 1, ACQUIRE_SPINS - 1, n));
            var events := [ReaderStep(r), ReaderStep(x), ReaderStep(r)];
            CanPlay(s0, events)
            && Play(s0, events) == At(At(Counted(s, k), r, Spinning(call, q, tries, spins - 1)), x,
                                      Checking(call, q, NEXT_TRIES - 1))
  {
    hide Apply, Enabled;
    var (call, q, k) := (NextAfter(last), s.writeSeq, SlotOf(s.config, Want(last)));
    var n := s.slots[k].refCount;
    var (a0, a1) := (Spinning(call, q, tries, spins), Swapping(call, q, tries, spins - 1, n));
    var a2 := Spinning(call, q, tries, spins - 1);
    var (b3, b4) := (Swapping(call, q, NEXT_TRIES - 1, ACQUIRE_SPINS - 1, n), Checking(call, q, NEXT_TRIES - 1));
    var counted := Counted(s, k);
    Commute(s, r, a0, x, b3);
    Commute(s, r, a1, x, b3);
    Commute(counted, r, a1, x, b4);
    Commute(counted, r, a2, x, b4);
    OnlyMoves(At(s, x, b3), r, a0, a1);
    SwapStep(At(s, r, a1), x, call, q, NEXT_TRIES - 1, ACQUIRE_SPINS - 1);
    OnlyMoves(At(counted, x, b4), r, a1, a2);
    var (s0, s1) := (At(At(s, r, a0), x, b3), At(At(s, r, a1), x, b3));
    var (s2, s3) := (At(At(counted, r, a1), x, b4), At(At(counted, r, a2), x, b4));
    CanStep(s0, r);
    CanStep(s2, r);
    PlayThree(s0, ReaderStep(r), s1, ReaderStep(x), s2, ReaderStep(r), s3);
  }

  /** Another reader takes the slot between r's load and r's swap. */
  lemma LoseSpin(s: State, r: nat, x: nat, last: nat, tries: nat, spins: nat) returns (events: seq<Event>)
    requires InPlace(s, last) && UnusedFrom(s, x) && r < x && 1 <= spins
    ensures ByReaders(events) && |events| == 6
    ensures var s0 := At(s, r, Spinning(NextAfter(last), s.writeSeq, tries, spins));
            var k := SlotOf(s.config, Want(last));
            && CanPlay(s0, events)
            && Play(s0, events) == At(At(Counted(s, k), r, Spinning(NextAfter(last), s.writeSeq, tries, spins - 1)), x,
                                      Checking(NextAfter(last), s.writeSeq, NEXT_TRIES - 1))
  {
    hide Apply, CanPlay, Play;
    var s0 := At(s, r, Spinning(NextAfter(last), s.writeSeq, tries, spins));
    var first := [Start(x, NextAfter(last)), ReaderStep(x), ReaderStep(x)];
    var then' := [ReaderStep(r), ReaderStep(x), ReaderStep(r)];
    Approach(s0, x, last);
    Overtake(s, r, x, last, tries, spins);
    PlayMore(s0, first, then');
    events := first + then';
  }

  lemma PlayNothing(s: State)
    ensures CanPlay(s, []) && Play(s, []) == s
  {
  }

  lemma StartIs(s: State, x: nat, call: Call)
    requires Shape(s) && x !in s.readers
    ensures Enabled(s, Start(x, call)) && Apply(s, Start(x, call)) == At(s, x, Sampling(call, NEXT_TRIES))
  {
  }

  lemma Commute(s: State, r: nat, a: Reader, x: nat, b: Reader)
    requires r != x
    ensures At(At(s, r, a), x, b) == At(At(s, x, b), r, a)
  {
    assert s.readers[r := a][x := b] == s.readers[x := b][r := a];
  }

  /** A swap that finds the counter as it was loaded. */
  lemma SwapStep(s: State, r: nat, call: Call, q: nat, tries: nat, spins: nat)
    requires Shape(s)
    ensures var k := SlotOf(s.config, Target(call, q));
            var s0 := At(s, r, Swapping(call, q, tries, spins, s.slots[k].refCount));
            && Shape(s0) && Enabled(s0, ReaderStep(r))
            && Apply(s0, ReaderStep(r)) == At(Counted(s, k), r, Checking(call, q, tries))
  {
    var k := SlotOf(s.config, Target(call, q));
    var s0 := At(s, r, Swapping(call, q, tries, spins, s.slots[k].refCount));
    assert s0.readers[r := Checking(call, q, tries)] == s.readers[r := Checking(call, q, tries)];
  }

  /** All the spins of a try. */
  lemma {:induction false} LoseSpins(s: State, r: nat, x: nat, last: nat, tries: nat, spins: nat)
    returns (events: seq<Event>, t: State)
    requires InPlace(s, last) && UnusedFrom(s, x) && r < x && CountOf(s, last) + spins < WRITER_LOCK
    ensures ByReaders(events) && |events| == 6 * spins
    ensures InPlace(t, last) && UnusedFrom(t, x + spins) && CountOf(t, last) == CountOf(s, last) + spins
    ensures t.writeSeq == s.writeSeq
    ensures var s0 := At(s, r, Spinning(NextAfter(last), s.writeSeq, tries, spins));
            CanPlay(s0, events) && Play(s0, events) == At(t, r, Spinning(NextAfter(last), s.writeSeq, tries, 0))
    decreases spins
  {
    hide Apply, CanPlay, Play;
    var (call, q) := (NextAfter(last), s.writeSeq);
    var s0 := At(s, r, Spinning(call, q, tries, spins));
    if spins == 0 {
      events, t := [], s;
      PlayNothing(s0);
    } else {
      var first := LoseSpin(s, r, x, last, tries, spins);
      var counted := Counted(s, SlotOf(s.config, Want(last)));
      var s1 := At(counted, x, Checking(call, q, NEXT_TRIES - 1));
      Commute(counted, r, Spinning(call, q, tries, spins - 1), x, Checking(call, q, NEXT_TRIES - 1));
      var rest;
      rest, t := LoseSpins(s1, r, x + 1, last, tries, spins - 1);
      PlayMore(s0, first, rest);
      events := first + rest;
    }
  }

  lemma OneStep(s: State, r: nat, reader: Reader, next: Reader)
    requires Shape(s) && !reader.Holding? && !reader.Done?
    requires var slot := s.slots[Home(s.config, reader)];
             AdvanceCount(reader, slot) == slot.refCount && AdvanceReader(At(s, r, reader), reader, slot) == next
    ensures CanPlay(At(s, r, reader), [ReaderStep(r)])
    ensures Play(At(s, r, reader), [ReaderStep(r)]) == At(s, r, next)
  {
    hide Apply, Enabled, AdvanceReader, AdvanceCount;
    OnlyMoves(s, r, reader, next);
    CanStep(At(s, r, reader), r);
    PlayNothing(At(s, r, reader));
    PlayOne(At(s, r, reader), [], ReaderStep(r));
    assert [] + [ReaderStep(r)] == [ReaderStep(r)];
  }

  /** And all its tries. */
  lemma {:induction false} LoseTries(s: State, r: nat, x: nat, last: nat, tries: nat)
    returns (events: seq<Event>, t: State)
    requires InPlace(s, last) && UnusedFrom(s, x) && r < x
    requires CountOf(s, last) + ACQUIRE_SPINS * tries < WRITER_LOCK
    ensures ByReaders(events) && |events| == (6 * ACQUIRE_SPINS + 2) * tries + 1
    ensures var s0 := At(s, r, Sampling(NextAfter(last), tries));
            CanPlay(s0, events) && Play(s0, events) == At(t, r, Done(NextAfter(last), UpToDate))
    decreases tries
  {
    hide Apply, CanPlay, Play;
    var (call, q) := (NextAfter(last), s.writeSeq);
    var s0 := At(s, r, Sampling(call, tries));
    if tries == 0 {
      OneStep(s, r, Sampling(call, 0), Done(call, UpToDate));
      events, t := [ReaderStep(r)], s;
    } else {
      OneStep(s, r, Sampling(call, tries), Spinning(call, q, tries - 1, ACQUIRE_SPINS));
      var spinning, s1 := LoseSpins(s, r, x, last, tries - 1, ACQUIRE_SPINS);
      OneStep(s1, r, Spinning(call, q, tries - 1, 0), Sampling(call, tries - 1));
      var rest;
      rest, t := LoseTries(s1, r, x + ACQUIRE_SPINS, last, tries - 1);
      PlayMore(At(s1, r, Spinning(call, q, tries - 1, 0)), [ReaderStep(r)], rest);
      PlayMore(At(s, r, Spinning(call, q, tries - 1, ACQUIRE_SPINS)), spinning, [ReaderStep(r)] + rest);
      PlayMore(s0, [ReaderStep(r)], spinning + ([ReaderStep(r)] + rest));
      events := [ReaderStep(r)] + (spinning + ([ReaderStep(r)] + rest));
    }
  }

  // ---- Such a run exists, on every ring ----

  /** The invariant, an idle producer, and room for b more holders of every slot. */
  ghost predicate Roomy(s: State, b: nat) {
    Inv(s) && s.producer.Idle? && forall k | 0 <= k < |s.slots| :: s.slots[k].refCount + b < WRITER_LOCK - 1
  }

  lemma RoomyIsUncrowded(s: State, b: nat)
    requires Roomy(s, b)
    ensures Uncrowded(s)
  {
    hide IdsExact, SlotsNewest, SlotsShowFrames, CopyProgress, HistoryExact, ReadersOk;
    forall k: nat ensures |Holders(s, k)| < WRITER_LOCK - 1 {
      if k >= |s.slots| {
        assert Holders(s, k) == {};
      } else {
        assert s.slots[k].refCount == |Holders(s, k)|;
      }
    }
  }

  lemma ReaderStepsAreSmall(s: State, e: Event)
    requires Shape(s) && Enabled(s, e) && (e.Start? || e.ReaderStep?)
    requires forall k | 0 <= k < |s.slots| :: 0 <= s.slots[k].refCount < WRITER_LOCK
    requires forall r | r in s.readers && s.readers[r].Counts() :: s.slots[Home(s.config, s.readers[r])].refCount >= 1
    ensures var t := Apply(s, e);
            && t.producer == s.producer && t.writeSeq == s.writeSeq && t.config == s.config && |t.slots| == |s.slots|
            && forall k | 0 <= k < |s.slots| ::
                 t.slots[k].refCount <= s.slots[k].refCount + 1 && t.slots[k].frameId == s.slots[k].frameId
  {
    hide AdvanceReader;
  }

  lemma RoomyStep(s: State, e: Event, b: nat)
    requires Roomy(s, b + 1) && Enabled(s, e) && (e.Start? || e.ReaderStep?)
    ensures Uncrowded(s) && Roomy(Apply(s, e), b)
  {
    hide Apply;
    RoomyIsUncrowded(s, b + 1);
    forall r | r in s.readers && s.readers[r].Counts() ensures s.slots[Home(s.config, s.readers[r])].refCount >= 1 {
      HolderExcludesWriter(s, r);
    }
    ReaderStepsAreSmall(s, e);
    StepKeepsInv(s, e, Apply(s, e));
  }

  /** While only readers move, there is room, and the ring's frames stay where they are. */
  lemma {:induction false} RoomyAlong(s: State, events: seq<Event>, b: nat)
    requires Roomy(s, b + |events|) && CanPlay(s, events) && ByReaders(events)
    ensures Roomy(Play(s, events), b) && Uncrowded(Play(s, events))
    ensures var t := Play(s, events);
            && t.producer.Idle? && t.writeSeq == s.writeSeq && t.config == s.config && |t.slots| == |s.slots|
            && forall k | 0 <= k < |s.slots| :: t.slots[k].frameId == s.slots[k].frameId
    decreases |events|
  {
    hide Inv, Apply, Uncrowded;
    if events != [] {
      var (front, e) := (events[..|events| - 1], events[|events| - 1]);
      RoomyAlong(s, front, b + 1);
      RoomyStep(Play(s, front), e, b);
      KeepsFrames(Play(s, front), e, b + 1);
    }
    RoomyIsUncrowded(Play(s, events), b);
  }

  lemma KeepsFrames(s: State, e: Event, b: nat)
    requires Roomy(s, b) && Enabled(s, e) && (e.Start? || e.ReaderStep?)
    ensures var t := Apply(s, e);
            && t.writeSeq == s.writeSeq && t.config == s.config && |t.slots| == |s.slots|
            && forall k | 0 <= k < |s.slots| :: t.slots[k].frameId == s.slots[k].frameId
  {
    hide AdvanceReader, AdvanceCount, CountsExact, IdsExact, SlotsNewest, SlotsShowFrames, CopyProgress, HistoryExact,
         ReadersOk;
  }

  /** The publish call in progress can be played to its end. */
  lemma {:induction false} PlayToReturn(s: State) returns (events: seq<Event>)
    requires Shape(s)
    ensures CanPlay(s, events) && Play(s, events) == Returned(s)
    ensures forall i | 0 <= i < |events| :: events[i] == ProducerStep
    decreases RingProgress.StepsLeft(s)
  {
    hide CanPlay, Play, Apply;
    if s.producer.Idle? {
      events := [];
      PlayNothing(s);
      AlreadyBack(s);
    } else {
      ReturnedStep(s);
      RingProgress.ProducerAdvances(s);
      StepIsAdvance(s);
      var rest := PlayToReturn(Apply(s, ProducerStep));
      PlayNothing(s);
      PlayOne(s, [], ProducerStep);
      assert [] + [ProducerStep] == [ProducerStep];
      PlayMore(s, [ProducerStep], rest);
      events := [ProducerStep] + rest;
    }
  }

  lemma StepIsAdvance(s: State)
    requires Shape(s) && !s.producer.Idle?
    ensures Enabled(s, ProducerStep) && Apply(s, ProducerStep) == AdvanceProducer(s)
  {
  }

  predicate ByProducer(events: seq<Event>) {
    forall i | 0 <= i < |events| :: events[i].Publish? || events[i].ProducerStep?
  }

  lemma ProducerAlone(s: State, e: Event)
    requires Inv(s) && s.readers == map[] && Enabled(s, e) && (e.Publish? || e.ProducerStep?)
    ensures Uncrowded(s) && Inv(Apply(s, e)) && Apply(s, e).readers == map[]
  {
    hide Inv;
    assert Shape(s) by { InvHasShape(s); }
    forall k: nat ensures Holders(s, k) == {} {}
    assert Step(s, e, Apply(s, e));
    StepKeepsInv(s, e, Apply(s, e));
  }

  lemma InvHasShape(s: State)
    requires Inv(s)
    ensures Shape(s)
  {
  }

  lemma NobodyIsUncrowded(s: State)
    requires s.config.capacity >= 1 && s.readers == map[]
    ensures Uncrowded(s)
  {
    forall k: nat ensures Holders(s, k) == {} {}
  }

  lemma {:induction false} ProducerAloneAlong(s: State, events: seq<Event>)
    requires Inv(s) && s.readers == map[] && CanPlay(s, events) && ByProducer(events)
    ensures Inv(Play(s, events)) && Play(s, events).readers == map[] && Uncrowded(Play(s, events))
    decreases |events|
  {
    hide Inv, Apply, Uncrowded;
    if events != [] {
      ProducerAloneAlong(s, events[..|events| - 1]);
      ProducerAlone(Play(s, events[..|events| - 1]), events[|events| - 1]);
    }
    InvHasShape(Play(s, events));
    NobodyIsUncrowded(Play(s, events));
  }

  lemma {:induction false} PrefixPlays(s: State, events: seq<Event>, n: nat)
    requires CanPlay(s, events) && n <= |events|
    ensures CanPlay(s, events[..n])
    decreases |events|
  {
    hide Apply, Enabled;
    if n < |events| {
      PrefixPlays(s, events[..|events| - 1], n);
      assert events[..|events| - 1][..n] == events[..n];
    } else {
      assert events[..n] == events;
    }
  }

  ghost predicate UncrowdedAt(s: State, events: seq<Event>, n: nat) {
    n <= |events| && CanPlay(s, events[..n]) && Shape(Play(s, events[..n])) && Uncrowded(Play(s, events[..n]))
  }

  lemma RunGrows(states: seq<State>, events: seq<Event>, e: Event, t: State)
    requires IsRun(states, events)
    requires Step(states[|events|], e, t) && Uncrowded(states[|events|])
    ensures IsRun(states + [t], events + [e])
  {
    hide Step, Uncrowded, Init;
  }

  lemma RunStarts(s: State)
    requires Init(s)
    ensures IsRun([s], [])
  {
  }

  /** The states that a sequence of events passes through. */
  ghost predicate PassedBy(states: seq<State>, s: State, events: seq<Event>) {
    && |states| == |events| + 1
    && forall n | 0 <= n <= |events| :: CanPlay(s, events[..n]) && states[n] == Play(s, events[..n])
  }

  lemma PassedGrows(states: seq<State>, s: State, events: seq<Event>)
    requires events != [] && CanPlay(s, events) && PassedBy(states, s, events[..|events| - 1])
    ensures PassedBy(states + [Play(s, events)], s, events)
  {
    hide CanPlay, Play;
    var front := events[..|events| - 1];
    forall m | 0 <= m <= |events|
      ensures CanPlay(s, events[..m]) && (states + [Play(s, events)])[m] == Play(s, events[..m])
    {
      if m < |events| {
        assert front[..m] == events[..m];
      } else {
        assert events[..m] == events;
      }
    }
  }

  /** What is played from the start without crowding is a run. */
  lemma {:induction false} PlayIsRun(s: State, events: seq<Event>) returns (states: seq<State>)
    requires Init(s) && CanPlay(s, events) && forall n | 0 <= n < |events| :: UncrowdedAt(s, events, n)
    ensures IsRun(states, events) && PassedBy(states, s, events)
    decreases |events|
  {
    hide Apply, Init, Uncrowded, IsRun;
    if events == [] {
      states := [s];
      RunStarts(s);
    } else {
      var n := |events| - 1;
      var (front, e) := (events[..n], events[n]);
      forall m | 0 <= m < n ensures UncrowdedAt(s, front, m) {
        assert UncrowdedAt(s, events, m) && front[..m] == events[..m];
      }
      var before := PlayIsRun(s, front);
      assert UncrowdedAt(s, events, n) && front[..n] == front;
      RunGrows(before, front, e, Play(s, events));
      PassedGrows(before, s, events);
      states := before + [Play(s, events)];
      assert front + [e] == events;
    }
  }

  /** A first frame, published with nobody around. */
  lemma PublishFirst(config: Config) returns (s: State, events: seq<Event>)
    requires ValidConfig(config)
    ensures Init(s) && s.readers == map[] && s.config == config && CanPlay(s, events) && ByProducer(events)
    ensures var t := Play(s, events);
            && t.config == config && t.producer.Idle? && t.readers == map[] && t.writeSeq == 1
            && Inv(t) && InPlace(t, 0) && CountOf(t, 0) == 0
            && forall k | 0 <= k < |t.slots| :: t.slots[k].refCount == 0
  {
    hide Apply, Inv;
    var blank := Slot(0, 0, Meta(0, 0, 0, 0), seq(config.frameSize, _ => 0));
    s := State(config, seq(config.capacity, _ => blank), 0, 0, Idle, map[], [], [], []);
    var data := blank.data;
    assert Init(s);
    var s1 := BeginPublish(s, data, 0);
    assert Enabled(s, Publish(data, 0)) && Apply(s, Publish(data, 0)) == s1 by { PublishIs(s, data, 0); }
    PublishStepsAddUp(s, data, 0);
    var rest := PlayToReturn(s1);
    PlayNothing(s);
    PlayOne(s, [], Publish(data, 0));
    assert [] + [Publish(data, 0)] == [Publish(data, 0)];
    PlayMore(s, [Publish(data, 0)], rest);
    events := [Publish(data, 0)] + rest;
    InitInv(s);
    ProducerAloneAlong(s, events);
    var t := Play(s, events);
    assert SegmentOf(t) == PublishAlone(SegmentOf(s), data, 0).0;
    InvHasShape(t);
  }

  lemma PublishIs(s: State, data: seq<bv8>, ts: nat)
    requires Shape(s) && s.producer.Idle?
    ensures Enabled(s, Publish(data, ts)) && Apply(s, Publish(data, ts)) == BeginPublish(s, data, ts)
  {
  }

  /** The events of the misleading run: a frame is published, reader 0 asks for it, and other
      readers win every swap. */
  lemma Misled(config: Config) returns (s: State, first: seq<Event>, more: seq<Event>)
    requires ValidConfig(config)
    ensures Init(s) && s.readers == map[] && s.config == config
    ensures CanPlay(s, first) && ByProducer(first) && ByReaders(more)
    ensures var t := Play(s, first);
            && t.config == config && t.readers == map[] && t.writeSeq == 1 && InPlace(t, 0)
            && Roomy(t, |more|) && CanPlay(t, more)
            && more != [] && more[0] == Start(0, NextAfter(0))
            && 0 in Play(t, more).readers && Play(t, more).readers[0] == Done(NextAfter(0), UpToDate)
  {
    hide Apply, Inv, Init, CanPlay, Play;
    s, first := PublishFirst(config);
    var t := Play(s, first);
    StartIs(t, 0, NextAfter(0));
    PlayNothing(t);
    PlayOne(t, [], Start(0, NextAfter(0)));
    assert [] + [Start(0, NextAfter(0))] == [Start(0, NextAfter(0))];
    var rest, u := LoseTries(t, 0, 1, 0, NEXT_TRIES);
    PlayMore(t, [Start(0, NextAfter(0))], rest);
    more := [Start(0, NextAfter(0))] + rest;
  }

  /** On every ring there is a run in which the producer rests, the frame asked for is
      published and stays in its slot, and next_after still says "up to date". */
  lemma FalseUpToDate(config: Config) returns (states: seq<State>, events: seq<Event>, i: nat)
    requires ValidConfig(config)
    ensures IsRun(states, events) && states[0].config == config
    ensures i < |events| && events[i] == Start(0, NextAfter(0))
    ensures forall n | i <= n < |states| :: Rests(states[n], config)
    ensures 0 in states[|events|].readers && states[|events|].readers[0] == Done(NextAfter(0), UpToDate)
  {
    hide Apply, Inv, Init, Uncrowded, Roomy, CanPlay, Play, IsRun;
    var s, first, more := Misled(config);
    var t := Play(s, first);
    PlayMore(s, first, more);
    events, i := first + more, |first|;
    forall n | 0 <= n <= |events|
      ensures UncrowdedAt(s, events, n) && (n >= i ==> Rests(Play(s, events[..n]), config))
    {
      PrefixPlays(s, events, n);
      if n <= i {
        assert events[..n] == first[..n];
        InitInv(s);
        ProducerAloneAlong(s, first[..n]);
        InvHasShape(Play(s, first[..n]));
      }
      if n >= i {
        assert events[..n] == first + more[..n - i];
        PrefixPlays(t, more, n - i);
        PlayMore(s, first, more[..n - i]);
        LessRoom(t, |more|, n - i);
        RoomyAlong(t, more[..n - i], 0);
        RoomyHasShape(Play(t, more[..n - i]), 0);
      }
    }
    states := PlayIsRun(s, events);
    assert events[..|events|] == events && events[..0] == [];
    PlayNothing(s);
    RunShape(states, events);
  }

  lemma RunShape(states: seq<State>, events: seq<Event>)
    requires IsRun(states, events)
    ensures |states| == |events| + 1
  {
  }

  /** The producer is idle, and the one frame published sits in its slot. */
  ghost predicate Rests(s: State, config: Config)
    requires config.capacity >= 1
  {
    && s.producer.Idle? && s.writeSeq == 1 && |s.slots| == config.capacity
    && s.slots[SlotOf(config, 1)].frameId == 1
  }

  lemma LessRoom(s: State, a: nat, b: nat)
    requires Roomy(s, a) && b <= a
    ensures Roomy(s, b)
  {
    hide Inv;
  }

  lemma RoomyHasShape(s: State, b: nat)
    requires Roomy(s, b)
    ensures Shape(s)
  {
  }
}
