/** What `publish`, `latest`, `next_after` and dropping a guard do when nobody runs in
    between, as one transition each, and that the atomic steps add up to it. */
module RingAlone {
  import opened Arithmetic
  import opened Ring
  import opened RingInvariant
  import opened RingProgress

  /** The shared segment without anyone's program counter. */
  datatype Segment = Segment(config: Config, slots: seq<Slot>, writeSeq: nat, dropped: nat)

  datatype PublishAnswer =
    | InvalidFrameSize(expected: nat, got: nat)
    | IdOverflow
    | Answered(result: PublishResult)

  datatype Guard = Guard(slot: nat, view: View)

  datatype Fetched =
    | Got(guard: Guard)
    | Empty
    | NoNews
    | Behind(lastSeen: nat, latest: nat)

  ghost predicate Sound(g: Segment) {
    && ValidConfig(g.config)
    && |g.slots| == g.config.capacity
    && (forall k | 0 <= k < |g.slots| :: |g.slots[k].data| == g.config.frameSize)
  }

  function SegmentOf(s: State): Segment {
    Segment(s.config, s.slots, s.writeSeq, s.dropped)
  }

  function WithSegment(s: State, g: Segment): State {
    s.(slots := g.slots, writeSeq := g.writeSeq, dropped := g.dropped)
  }

  // ---- The calls as one transition each ----

  function PublishAlone(g: Segment, data: seq<bv8>, ts: nat): (Segment, PublishAnswer)
    requires Sound(g)
  {
    if |data| != g.config.frameSize then (g, InvalidFrameSize(g.config.frameSize, |data|))
    else if g.writeSeq >= MAX_ID then (g, IdOverflow)
    else
      var (id, k) := (g.writeSeq + 1, SlotOf(g.config, g.writeSeq + 1));
      var cur := g.slots[k].refCount;
      if cur != 0 then
        (g.(dropped := g.dropped + 1),
         Answered(Dropped(if cur == WRITER_LOCK then WriterLockHeld(k) else HeldByReaders(k, cur))))
      else
        var meta := Meta(ts, g.config.width, g.config.height, g.config.format);
        (g.(slots := g.slots[k := Slot(0, id, meta, data)], writeSeq := id), Answered(Published(id)))
  }

  /** Taking a slot that is not locked. */
  function Take(g: Segment, k: nat): (Segment, Fetched)
    requires Sound(g) && k < |g.slots|
  {
    var slot := g.slots[k];
    (g.(slots := g.slots[k := slot.(refCount := slot.refCount + 1)]), Got(Guard(k, View(slot.frameId, slot.meta))))
  }

  function LatestAlone(g: Segment): (Segment, Fetched)
    requires Sound(g)
  {
    var k := SlotOf(g.config, g.writeSeq);
    if g.writeSeq == 0 || g.slots[k].refCount == WRITER_LOCK then (g, Empty) else Take(g, k)
  }

  function NextAfterAlone(g: Segment, last: nat): (Segment, Fetched)
    requires Sound(g)
  {
    var (want, k) := (Want(last), SlotOf(g.config, Want(last)));
    if g.writeSeq == 0 || want > g.writeSeq then (g, NoNews)
    else if g.writeSeq - want >= g.config.capacity then (g, Behind(last, g.writeSeq))
    else if g.slots[k].refCount == WRITER_LOCK || g.slots[k].frameId != want then (g, NoNews)
    else Take(g, k)
  }

  function DropAlone(g: Segment, guard: Guard): Segment
    requires Sound(g) && guard.slot < |g.slots|
  {
    var slot := g.slots[guard.slot];
    g.(slots := g.slots[guard.slot := slot.(refCount := Decrement(slot.refCount))])
  }

  // ---- The producer's steps add up ----

  /** The state once the producer, running alone, has returned. */
  function Returned(s: State): State
    requires Shape(s)
    decreases StepsLeft(s)
  {
    if s.producer.Idle? then s else Returned(Apply(s, ProducerStep))
  }

  /** The state after the producer has copied the bytes from n on into its slot. */
  lemma {:induction false} CopyAlone(s: State)
    requires Shape(s) && s.producer.Copying?
    requires var n := s.producer.count;
             s.slots[SlotOf(s.config, s.producer.id)].data[..n] == Offer(s).data[..n]
    ensures var (id, k) := (s.producer.id, SlotOf(s.config, s.producer.id));
            var copied := s.(slots := s.slots[k := s.slots[k].(data := Offer(s).data)], producer := WritingMeta(id, 0));
            Returned(s) == Returned(copied)
    decreases StepsLeft(s)
  {
    hide Returned;
    var (id, k, n) := (s.producer.id, SlotOf(s.config, s.producer.id), s.producer.count);
    var s' := Apply(s, ProducerStep);
    ReturnedStep(s);
    CopyByte(s.slots[k].data, Offer(s).data, n);
    if s'.producer.Copying? {
      CopyAlone(s');
      assert s'.slots[k := s'.slots[k].(data := Offer(s).data)] == s.slots[k := s.slots[k].(data := Offer(s).data)];
    }
  }

  lemma ReturnedStep(s: State)
    requires Shape(s) && !s.producer.Idle?
    ensures Shape(Apply(s, ProducerStep)) && Returned(s) == Returned(Apply(s, ProducerStep))
  {
    hide AdvanceProducer;
    ProducerAdvances(s);
  }

  /** The four metadata fields. */
  lemma MetaAlone(s: State)
    requires Shape(s) && s.producer == WritingMeta(s.writeSeq + 1, 0)
    ensures var (id, k) := (s.writeSeq + 1, SlotOf(s.config, s.writeSeq + 1));
            var written := s.(slots := s.slots[k := s.slots[k].(meta := Offer(s).meta)], producer := StoringId(id));
            Shape(written) && Returned(s) == Returned(written)
  {
    hide Returned;
    var k := SlotOf(s.config, s.writeSeq + 1);
    var s1 := Apply(s, ProducerStep);
    var s2 := Apply(s1, ProducerStep);
    var s3 := Apply(s2, ProducerStep);
    var s4 := Apply(s3, ProducerStep);
    ReturnedStep(s);
    ReturnedStep(s1);
    ReturnedStep(s2);
    ReturnedStep(s3);
    assert s4.slots == s.slots[k := s.slots[k].(meta := Offer(s).meta)];
  }

  /** The state once the offered frame is announced under the next id. */
  function Announced(s: State, data: seq<bv8>): State
    requires Shape(s) && s.offers != []
  {
    var id := s.writeSeq + 1;
    s.(slots := s.slots[SlotOf(s.config, id) := Slot(0, id, Offer(s).meta, data)], writeSeq := id, producer := Idle,
       stored := s.stored + [Offer(s)], results := s.results + [Published(id)])
  }

  /** It does not matter how far the slot had been written. */
  lemma AnnouncedSame(s: State, slot: Slot, p: Producer, data: seq<bv8>)
    requires Shape(s) && s.offers != []
    requires var t := s.(slots := s.slots[SlotOf(s.config, s.writeSeq + 1) := slot], producer := p); Shape(t)
    ensures var t := s.(slots := s.slots[SlotOf(s.config, s.writeSeq + 1) := slot], producer := p);
            Announced(t, data) == Announced(s, data)
  {
    var k := SlotOf(s.config, s.writeSeq + 1);
    var last := Slot(0, s.writeSeq + 1, Offer(s).meta, data);
    assert s.slots[k := slot][k := last] == s.slots[k := last];
  }

  /** The id, the release, and write_seq. */
  lemma AnnounceAlone(s: State)
    requires Shape(s) && s.producer == StoringId(s.writeSeq + 1)
    requires s.slots[SlotOf(s.config, s.writeSeq + 1)].meta == Offer(s).meta
    ensures Returned(s) == Announced(s, s.slots[SlotOf(s.config, s.writeSeq + 1)].data)
  {
    hide Returned;
    var s1 := Apply(s, ProducerStep);
    var s2 := Apply(s1, ProducerStep);
    var s3 := Apply(s2, ProducerStep);
    ReturnedStep(s);
    ReturnedStep(s1);
    ReturnedStep(s2);
    AlreadyBack(s3);
  }

  /** From the metadata on. */
  lemma FinishAlone(s: State)
    requires Shape(s) && s.producer == WritingMeta(s.writeSeq + 1, 0)
    ensures Returned(s) == Announced(s, s.slots[SlotOf(s.config, s.writeSeq + 1)].data)
  {
    hide Returned, Announced;
    var (id, k) := (s.writeSeq + 1, SlotOf(s.config, s.writeSeq + 1));
    var slot := s.slots[k].(meta := Offer(s).meta);
    MetaAlone(s);
    AnnounceAlone(s.(slots := s.slots[k := slot], producer := StoringId(id)));
    AnnouncedSame(s, slot, StoringId(id), s.slots[k].data);
  }

  lemma AlreadyBack(s: State)
    requires Shape(s) && s.producer.Idle?
    ensures Returned(s) == s
  {
  }

  /** The atomic steps of `publish`, run without interference, make exactly the one
      transition, and return exactly its result. */
  lemma PublishStepsAddUp(s: State, data: seq<bv8>, ts: nat)
    requires Shape(s) && s.producer.Idle?
    ensures Shape(BeginPublish(s, data, ts))
    ensures var (g, answer) := PublishAlone(SegmentOf(s), data, ts);
            var s' := Returned(BeginPublish(s, data, ts));
            && SegmentOf(s') == g && s'.producer.Idle? && s'.readers == s.readers
            && s'.results == (if answer.Answered? then s.results + [answer.result] else s.results)
  {
    hide Returned;
    var s0 := BeginPublish(s, data, ts);
    if s0.producer.Idle? {
      AlreadyBack(s0);
    } else {
      var s1 := Apply(s0, ProducerStep);
      ReturnedStep(s0);
      if s1.producer.Refused? {
        var s2 := Apply(s1, ProducerStep);
        var s3 := Apply(s2, ProducerStep);
        ReturnedStep(s1);
        ReturnedStep(s2);
        AlreadyBack(s3);
      } else {
        CopiedAlone(s1);
      }
    }
  }

  lemma CopiedAlone(s: State)
    requires Shape(s) && s.offers != [] && |Offer(s).data| == s.config.frameSize
    requires s.producer == AfterCopy(s, s.writeSeq + 1, 0)
    ensures Returned(s) == Announced(s, Offer(s).data)
  {
    hide Returned, Announced;
    var (id, k) := (s.writeSeq + 1, SlotOf(s.config, s.writeSeq + 1));
    if s.producer.Copying? {
      var slot := s.slots[k].(data := Offer(s).data);
      CopyAlone(s);
      FinishAlone(s.(slots := s.slots[k := slot], producer := WritingMeta(id, 0)));
      AnnouncedSame(s, slot, WritingMeta(id, 0), Offer(s).data);
    } else {
      assert s.slots[k].data == Offer(s).data;
      FinishAlone(s);
    }
  }

  // ---- A reader's steps add up ----

  /** The state once reader r, running alone, has a guard or an answer. */
  function Settled(s: State, r: nat): State
    requires Shape(s) && r in s.readers
    decreases ReadsLeft(s.readers[r])
  {
    if s.readers[r].Holding? || s.readers[r].Done? then s else Settled(Apply(s, ReaderStep(r)), r)
  }

  lemma SettledStep(s: State, r: nat)
    requires Shape(s) && r in s.readers && !s.readers[r].Holding? && !s.readers[r].Done?
    ensures var s' := Apply(s, ReaderStep(r));
            Shape(s') && r in s'.readers && Settled(s, r) == Settled(s', r)
  {
  }

  lemma AlreadySettled(s: State, r: nat)
    requires Shape(s) && r in s.readers && (s.readers[r].Holding? || s.readers[r].Done?)
    ensures Settled(s, r) == s
  {
  }

  function At(s: State, r: nat, reader: Reader): State {
    s.(readers := s.readers[r := reader])
  }

  /** A step that leaves the slot's counter alone only moves the reader. */
  lemma OnlyMoves(s: State, r: nat, reader: Reader, next: Reader)
    requires Shape(s) && !reader.Holding? && !reader.Done?
    requires var slot := s.slots[Home(s.config, reader)];
             AdvanceCount(reader, slot) == slot.refCount && AdvanceReader(At(s, r, reader), reader, slot) == next
    ensures Shape(At(s, r, reader)) && Shape(At(s, r, next))
    ensures Apply(At(s, r, reader), ReaderStep(r)) == At(s, r, next)
  {
    hide AdvanceReader, AdvanceCount;
    var s0 := At(s, r, reader);
    var k := Home(s.config, reader);
    assert s.slots[k := s.slots[k].(refCount := s.slots[k].refCount)] == s.slots;
    assert s0.readers[r := next] == s.readers[r := next];
  }

  lemma OwnStep(s: State, r: nat, reader: Reader, next: Reader)
    requires Shape(s) && !reader.Holding? && !reader.Done?
    requires var slot := s.slots[Home(s.config, reader)];
             AdvanceCount(reader, slot) == slot.refCount && AdvanceReader(At(s, r, reader), reader, slot) == next
    ensures Shape(At(s, r, reader)) && Shape(At(s, r, next))
    ensures Settled(At(s, r, reader), r) == Settled(At(s, r, next), r)
  {
    hide Settled, AdvanceReader, AdvanceCount;
    SettledStep(At(s, r, reader), r);
    OnlyMoves(s, r, reader, next);
  }

  /** Spinning on a locked slot changes nothing and uses up the spins. */
  lemma {:induction false} SpinAlone(s: State, r: nat, call: Call, tries: nat, spins: nat)
    requires Shape(s) && s.slots[SlotOf(s.config, Target(call, s.writeSeq))].refCount == WRITER_LOCK
    ensures Settled(At(s, r, Spinning(call, s.writeSeq, tries, spins)), r)
         == Settled(At(s, r, Spinning(call, s.writeSeq, tries, 0)), r)
    decreases spins
  {
    hide Settled;
    if spins > 0 {
      OwnStep(s, r, Spinning(call, s.writeSeq, tries, spins), Spinning(call, s.writeSeq, tries, spins - 1));
      SpinAlone(s, r, call, tries, spins - 1);
    }
  }

  /** The state when a slot's counter has gone up by one. */
  function Counted(s: State, k: nat): State
    requires Shape(s) && k < |s.slots|
  {
    s.(slots := s.slots[k := s.slots[k].(refCount := s.slots[k].refCount + 1)])
  }

  /** Two steps take a slot that is not locked. */
  lemma SwapAlone(s: State, r: nat, call: Call, tries: nat)
    requires Shape(s)
    requires s.slots[SlotOf(s.config, Target(call, s.writeSeq))].refCount != WRITER_LOCK
    ensures var taken := Counted(s, SlotOf(s.config, Target(call, s.writeSeq)));
            && Shape(taken)
            && Settled(At(s, r, Spinning(call, s.writeSeq, tries, ACQUIRE_SPINS)), r)
            == Settled(At(taken, r, Checking(call, s.writeSeq, tries)), r)
  {
    hide Settled;
    var k := SlotOf(s.config, Target(call, s.writeSeq));
    var swapping := Swapping(call, s.writeSeq, tries, ACQUIRE_SPINS - 1, s.slots[k].refCount);
    OwnStep(s, r, Spinning(call, s.writeSeq, tries, ACQUIRE_SPINS), swapping);
    var s1 := At(s, r, swapping);
    SettledStep(s1, r);
    assert s1.readers[r := Checking(call, s.writeSeq, tries)] == s.readers[r := Checking(call, s.writeSeq, tries)];
  }

  /** Six more steps read the slot's id and metadata into a guard. */
  lemma ReadAlone(s: State, r: nat, call: Call, q: nat, tries: nat)
    requires Shape(s)
    requires var slot := s.slots[SlotOf(s.config, Target(call, q))];
             call.NextAfter? ==> slot.frameId == Want(call.last)
    ensures var slot := s.slots[SlotOf(s.config, Target(call, q))];
            Settled(At(s, r, Checking(call, q, tries)), r)
            == At(s, r, Holding(call, q, View(slot.frameId, slot.meta)))
  {
    hide Settled;
    var slot := s.slots[SlotOf(s.config, Target(call, q))];
    var (id, m) := (slot.frameId, slot.meta);
    var m0 := Meta(0, 0, 0, 0);
    var m1 := m0.(ts := m.ts);
    var m2 := m1.(width := m.width);
    var m3 := m2.(height := m.height);
    OwnStep(s, r, Checking(call, q, tries), Reading(call, q, id, 0, m0));
    OwnStep(s, r, Reading(call, q, id, 0, m0), Reading(call, q, id, 1, m1));
    OwnStep(s, r, Reading(call, q, id, 1, m1), Reading(call, q, id, 2, m2));
    OwnStep(s, r, Reading(call, q, id, 2, m2), Reading(call, q, id, 3, m3));
    OwnStep(s, r, Reading(call, q, id, 3, m3), Reading(call, q, id, 4, m));
    OwnStep(s, r, Reading(call, q, id, 4, m), Holding(call, q, View(id, m)));
    AlreadySettled(At(s, r, Holding(call, q, View(id, m))), r);
  }

  /** Where a call that met this answer leaves its reader. */
  function Outcomes(call: Call, sampled: nat, answer: Fetched): Reader {
    match answer
    case Got(guard) => Holding(call, sampled, guard.view)
    case Empty => Done(call, Nothing)
    case NoNews => Done(call, UpToDate)
    case Behind(last, latest) => Done(call, TooFarBehind(last, latest))
  }

  function FetchAlone(g: Segment, call: Call): (Segment, Fetched)
    requires Sound(g)
  {
    match call
    case Latest => LatestAlone(g)
    case NextAfter(last) => NextAfterAlone(g, last)
  }

  /** A taken slot with the wrong frame is given back as it was. */
  lemma BackOutAlone(s: State, r: nat, last: nat, tries: nat)
    requires Shape(s) && s.slots[SlotOf(s.config, Want(last))].frameId != Want(last)
    ensures var taken := Counted(s, SlotOf(s.config, Want(last)));
            && Shape(taken)
            && Settled(At(taken, r, Checking(NextAfter(last), s.writeSeq, tries)), r)
            == Settled(At(s, r, Sampling(NextAfter(last), tries)), r)
  {
    hide Settled;
    var (call, k) := (NextAfter(last), SlotOf(s.config, Want(last)));
    var taken := Counted(s, k);
    var backing := BackingOut(call, s.writeSeq, tries);
    OwnStep(taken, r, Checking(call, s.writeSeq, tries), backing);
    var s1 := At(taken, r, backing);
    SettledStep(s1, r);
    assert taken.slots[k := taken.slots[k].(refCount := s.slots[k].refCount)] == s.slots;
    assert s1.readers[r := Sampling(call, tries)] == s.readers[r := Sampling(call, tries)];
  }

  /** One try of next_after on a slot that is locked or holds another frame. */
  lemma FailAlone(s: State, r: nat, last: nat, tries: nat)
    requires Shape(s) && tries > 0 && Want(last) <= s.writeSeq < Want(last) + s.config.capacity
    requires var slot := s.slots[SlotOf(s.config, Want(last))];
             slot.refCount == WRITER_LOCK || slot.frameId != Want(last)
    ensures Settled(At(s, r, Sampling(NextAfter(last), tries)), r)
         == Settled(At(s, r, Sampling(NextAfter(last), tries - 1)), r)
  {
    hide Settled;
    var (call, q) := (NextAfter(last), s.writeSeq);
    OwnStep(s, r, Sampling(call, tries), Spinning(call, q, tries - 1, ACQUIRE_SPINS));
    if s.slots[SlotOf(s.config, Want(last))].refCount == WRITER_LOCK {
      SpinAlone(s, r, call, tries - 1, ACQUIRE_SPINS);
      OwnStep(s, r, Spinning(call, q, tries - 1, 0), Sampling(call, tries - 1));
    } else {
      SwapAlone(s, r, call, tries - 1);
      BackOutAlone(s, r, last, tries - 1);
    }
  }

  lemma {:induction false} RetryAlone(s: State, r: nat, last: nat, tries: nat)
    requires Shape(s) && Want(last) <= s.writeSeq < Want(last) + s.config.capacity
    requires var slot := s.slots[SlotOf(s.config, Want(last))];
             slot.refCount == WRITER_LOCK || slot.frameId != Want(last)
    ensures Settled(At(s, r, Sampling(NextAfter(last), tries)), r) == At(s, r, Done(NextAfter(last), UpToDate))
    decreases tries
  {
    hide Settled;
    if tries == 0 {
      OwnStep(s, r, Sampling(NextAfter(last), 0), Done(NextAfter(last), UpToDate));
      AlreadySettled(At(s, r, Done(NextAfter(last), UpToDate)), r);
    } else {
      FailAlone(s, r, last, tries);
      RetryAlone(s, r, last, tries - 1);
    }
  }

  /** A call that gets its slot. */
  lemma GotAlone(s: State, r: nat, call: Call)
    requires Shape(s) && FetchAlone(SegmentOf(s), call).1.Got?
    ensures var (g, answer) := FetchAlone(SegmentOf(s), call);
            Settled(At(s, r, Sampling(call, NEXT_TRIES)), r)
            == At(WithSegment(s, g), r, Outcomes(call, s.writeSeq, answer))
  {
    hide Settled;
    var tries := if call.Latest? then NEXT_TRIES else NEXT_TRIES - 1;
    OwnStep(s, r, Sampling(call, NEXT_TRIES), Spinning(call, s.writeSeq, tries, ACQUIRE_SPINS));
    SwapAlone(s, r, call, tries);
    ReadAlone(Counted(s, SlotOf(s.config, Target(call, s.writeSeq))), r, call, s.writeSeq, tries);
  }

  /** A call that is answered from write_seq alone, or finds its slot locked or reused. */
  lemma NotGotAlone(s: State, r: nat, call: Call)
    requires Shape(s) && !FetchAlone(SegmentOf(s), call).1.Got?
    ensures FetchAlone(SegmentOf(s), call).0 == SegmentOf(s)
    ensures Settled(At(s, r, Sampling(call, NEXT_TRIES)), r)
         == At(s, r, Outcomes(call, s.writeSeq, FetchAlone(SegmentOf(s), call).1))
  {
    hide Settled;
    var done := Outcomes(call, s.writeSeq, FetchAlone(SegmentOf(s), call).1);
    if AdvanceReader(s, Sampling(call, NEXT_TRIES), s.slots[0]).Done? {
      OwnStep(s, r, Sampling(call, NEXT_TRIES), done);
      AlreadySettled(At(s, r, done), r);
    } else if call.NextAfter? {
      RetryAlone(s, r, call.last, NEXT_TRIES);
    } else {
      OwnStep(s, r, Sampling(call, NEXT_TRIES), Spinning(call, s.writeSeq, NEXT_TRIES, ACQUIRE_SPINS));
      SpinAlone(s, r, call, NEXT_TRIES, ACQUIRE_SPINS);
      OwnStep(s, r, Spinning(call, s.writeSeq, NEXT_TRIES, 0), done);
      AlreadySettled(At(s, r, done), r);
    }
  }

  /** The atomic steps of a reader's call, run without interference, make exactly the one
      transition and return exactly its answer, wherever the producer happens to stand. */
  lemma FetchStepsAddUp(s: State, r: nat, call: Call)
    requires Shape(s) && r !in s.readers
    ensures Sound(SegmentOf(s))
    ensures var (g, answer) := FetchAlone(SegmentOf(s), call);
            Settled(Apply(s, Start(r, call)), r)
            == At(WithSegment(s, g), r, Outcomes(call, s.writeSeq, answer))
  {
    hide Settled, FetchAlone;
    assert Apply(s, Start(r, call)) == At(s, r, Sampling(call, NEXT_TRIES));
    if FetchAlone(SegmentOf(s), call).1.Got? {
      GotAlone(s, r, call);
    } else {
      NotGotAlone(s, r, call);
    }
  }

  // ---- When a frame is published ----

  /** Which answer publish, left alone, gives to what. A frame of the right size is published
      exactly when an id is left and nobody counts in its slot, whatever the slot held
      before; otherwise nothing changes but, for a drop, the number of drops. */
  lemma PublishAnswers(g: Segment, data: seq<bv8>, ts: nat)
    requires Sound(g)
    ensures var (g', answer) := PublishAlone(g, data, ts);
            var k := (g.writeSeq + 1) % g.config.capacity;
            var fits := |data| == g.config.frameSize;
            && (answer == Answered(Published(g.writeSeq + 1)) <==>
                fits && g.writeSeq < MAX_ID && g.slots[k].refCount == 0)
            && (answer.InvalidFrameSize? <==> !fits)
            && (answer == IdOverflow <==> fits && g.writeSeq >= MAX_ID)
            && (answer.Answered? && answer.result.Dropped? <==>
                fits && g.writeSeq < MAX_ID && g.slots[k].refCount != 0)
            && (answer.Answered? && answer.result.Published? ==>
                  g'.writeSeq == g.writeSeq + 1 == g'.slots[k].frameId && g'.slots[k].data == data
                  && g'.slots[k].refCount == 0 && g'.dropped == g.dropped
                  && forall j | 0 <= j < |g.slots| && j != k :: g'.slots[j] == g.slots[j])
            && (!(answer.Answered? && answer.result.Published?) ==>
                  g' == g.(dropped := if answer.Answered? then g.dropped + 1 else g.dropped))
  {
  }

  // ---- When next_after and latest answer truthfully ----

  /** The producer has claimed the slot of frame `id` for a newer frame and has not yet
      announced it. */
  ghost predicate Replacing(s: State, id: nat) {
    && !s.producer.Idle? && !s.producer.Claiming? && !s.producer.Refused? && !s.producer.CountingDrop?
    && s.producer.id == id + s.config.capacity
  }

  /** A published id of the window is out of reach exactly while it is being replaced. */
  lemma OutOfReach(s: State, id: nat)
    requires Inv(s) && Uncrowded(s) && 1 <= id <= s.writeSeq < id + s.config.capacity
    ensures var slot := s.slots[SlotOf(s.config, id)];
            (slot.refCount == WRITER_LOCK || slot.frameId != id) <==> Replacing(s, id)
  {
    hide HistoryExact, CopyProgress, SlotsShowFrames, ReadersOk, Holders;
    var (k, c) := (SlotOf(s.config, id), s.config.capacity);
    var slot := s.slots[k];
    AddPeriod(id, c);
    if Locked(s, k) && s.producer.id < id + c {
      SameRemainder(id, s.producer.id, c);
    }
    if slot.frameId < id + c {
      SameRemainder(id, slot.frameId, c);
    }
    assert Locked(s, k) ==> s.producer.id == id + c;
    assert slot.frameId != id ==> slot.frameId == id + c == |s.stored|;
    assert s.producer.StoringSeq? && s.producer.id == id + c ==> slot.frameId >= id + c;
  }

  /** next_after(last), left alone, returns the successor exactly when that frame is in the
      window and is not being replaced; says TooFarBehind exactly when it has left the
      window; and says UpToDate exactly when it is not published yet - or is being replaced,
      the one case in which the answer is wrong. What it returns is the published frame. */
  lemma NextAfterAnswers(s: State, last: nat)
    requires Inv(s) && Uncrowded(s)
    ensures Sound(SegmentOf(s))
    ensures var (want, c) := (Want(last), s.config.capacity);
            var (g, answer) := NextAfterAlone(SegmentOf(s), last);
            && (answer.Got? <==> want <= s.writeSeq < want + c && !Replacing(s, want))
            && (answer.Behind? <==> want + c <= s.writeSeq)
            && (answer.NoNews? <==> s.writeSeq < want || (s.writeSeq < want + c && Replacing(s, want)))
            && (answer.Got? ==>
                  var guard := answer.guard;
                  && guard.view.id == want && guard.slot < |g.slots|
                  && Frame(g.slots[guard.slot].data, guard.view.meta) == s.stored[want - 1])
  {
    hide HistoryExact, CopyProgress, ReadersOk, Holders, CountsExact, Replacing;
    var (want, c) := (Want(last), s.config.capacity);
    if want <= s.writeSeq < want + c {
      OutOfReach(s, want);
      var k := SlotOf(s.config, want);
      if !Replacing(s, want) {
        assert !Dirty(s, k) by { CleanUnlessLocked(s, k); }
        assert Frame(s.slots[k].data, s.slots[k].meta) == s.stored[want - 1];
      }
    }
  }

  lemma CleanUnlessLocked(s: State, k: nat)
    requires Inv(s) && k < |s.slots| && s.slots[k].refCount != WRITER_LOCK
    ensures !Dirty(s, k)
  {
  }

  /** latest, left alone, returns a frame exactly when one was published and the producer
      is not inside the slot of the newest, which takes a ring of one slot. */
  lemma LatestAnswers(s: State)
    requires Inv(s) && Uncrowded(s)
    ensures Sound(SegmentOf(s))
    ensures var (g, answer) := LatestAlone(SegmentOf(s));
            && (answer.Got? <==> s.writeSeq >= 1 && !(s.config.capacity == 1 && Locked(s, 0)))
            && (answer.Got? ==>
                  var (guard, id) := (answer.guard, answer.guard.view.id);
                  && id == (if s.config.capacity == 1 then |s.stored| else s.writeSeq)
                  && guard.slot < |g.slots|
                  && Frame(g.slots[guard.slot].data, guard.view.meta) == s.stored[id - 1])
  {
    hide HistoryExact, CopyProgress, ReadersOk, Holders;
    var (q, c) := (s.writeSeq, s.config.capacity);
    if q >= 1 {
      var k := SlotOf(s.config, q);
      if Locked(s, k) && c > 1 {
        SameRemainder(q, s.producer.id, c);
      }
      if c > 1 {
        SameRemainder(q, s.slots[k].frameId, c);
      }
    }
  }

  /** What has just been published is what both calls return next, byte for byte. */
  lemma PublishedIsRead(g: Segment, data: seq<bv8>, ts: nat)
    requires Sound(g)
    ensures var (g', answer) := PublishAlone(g, data, ts);
            answer.Answered? && answer.result.Published? ==>
              var id := answer.result.id;
              && Sound(g')
              && LatestAlone(g') == NextAfterAlone(g', id - 1)
              && var (g'', got) := LatestAlone(g');
                 && got.Got?
                 && got.guard.view == View(id, Meta(ts, g.config.width, g.config.height, g.config.format))
                 && got.guard.slot < |g''.slots| && g''.slots[got.guard.slot].data == data
  {
  }

  /** While a guard is out, a frame aimed at its slot is dropped and the slots stay as they
      are; dropping the guard gives back the segment as it was before. */
  lemma GuardBlocksPublish(g: Segment, k: nat, data: seq<bv8>, ts: nat)
    requires Sound(g) && k < |g.slots| && g.slots[k].refCount < WRITER_LOCK - 1
    requires k == SlotOf(g.config, g.writeSeq + 1) && g.writeSeq < MAX_ID && |data| == g.config.frameSize
    ensures var (held, got) := Take(g, k);
            && Sound(held) && got.guard.slot < |held.slots|
            && DropAlone(held, got.guard) == g
            && PublishAlone(held, data, ts) ==
               (held.(dropped := g.dropped + 1), Answered(Dropped(HeldByReaders(k, g.slots[k].refCount + 1))))
  {
    var (held, got) := Take(g, k);
    assert held.slots[k := held.slots[k].(refCount := g.slots[k].refCount)] == g.slots;
  }
}
