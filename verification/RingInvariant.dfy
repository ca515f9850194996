/** What every state of the ring satisfies, and that every step keeps it. */
module RingInvariant {
  import opened Ring

  /** The producer is between its compare-and-swap and its release, in slot k. */
  ghost predicate Locked(s: State, k: nat)
    requires s.config.capacity >= 1
  {
    && (s.producer.Copying? || s.producer.WritingMeta? || s.producer.StoringId? || s.producer.Releasing?)
    && k == SlotOf(s.config, s.producer.id)
  }

  /** Slot k's bytes and metadata are being replaced. */
  ghost predicate Dirty(s: State, k: nat)
    requires s.config.capacity >= 1
  {
    Locked(s, k) && !s.producer.Releasing?
  }

  /** Mutual exclusion: the counter of a slot is the writer's sentinel exactly while
      the producer is inside it, and otherwise the number of readers inside it. */
  ghost predicate CountsExact(s: State)
    requires Shape(s)
  {
    forall k | 0 <= k < |s.slots| ::
      if Locked(s, k) then s.slots[k].refCount == WRITER_LOCK && Holders(s, k) == {}
      else s.slots[k].refCount == |Holders(s, k)|
  }

  /** Ids: write_seq counts the stored frames, but for one whose store of write_seq
      is still to come; the producer aims at the next id. */
  ghost predicate IdsExact(s: State) {
    && s.writeSeq <= |s.stored| <= MAX_ID
    && |s.stored| == (if s.producer.Releasing? || s.producer.StoringSeq? then s.writeSeq + 1 else s.writeSeq)
    && (!s.producer.Idle? ==> s.producer.id == s.writeSeq + 1 <= MAX_ID)
  }

  /** Every slot carries the newest stored id that belongs to it. */
  ghost predicate SlotsNewest(s: State)
    requires Shape(s)
  {
    && (forall k | 0 <= k < |s.slots| && s.slots[k].frameId > 0 ::
          s.slots[k].frameId <= |s.stored| && SlotOf(s.config, s.slots[k].frameId) == k)
    && (forall id | 1 <= id <= |s.stored| :: s.slots[SlotOf(s.config, id)].frameId >= id)
  }

  /** A slot that is not being replaced shows the frame stored under its id. */
  ghost predicate SlotsShowFrames(s: State)
    requires Shape(s) && SlotsNewest(s)
  {
    forall k | 0 <= k < |s.slots| && s.slots[k].frameId > 0 && !Dirty(s, k) ::
      Frame(s.slots[k].data, s.slots[k].meta) == s.stored[s.slots[k].frameId - 1]
  }

  /** a and b agree on the first n metadata fields. */
  predicate AgreeOn(n: nat, a: Meta, b: Meta) {
    && (n > 0 ==> a.ts == b.ts)
    && (n > 1 ==> a.width == b.width)
    && (n > 2 ==> a.height == b.height)
    && (n > 3 ==> a.format == b.format)
  }

  /** How far the producer has copied its frame into the slot it locked. */
  ghost predicate CopyProgress(s: State)
    requires Shape(s)
  {
    match s.producer
    case Copying(id, n) => s.slots[SlotOf(s.config, id)].data[..n] == Offer(s).data[..n]
    case WritingMeta(id, f) =>
      var slot := s.slots[SlotOf(s.config, id)];
      slot.data == Offer(s).data && AgreeOn(f, slot.meta, Offer(s).meta)
    case StoringId(id) =>
      var slot := s.slots[SlotOf(s.config, id)];
      Frame(slot.data, slot.meta) == Offer(s)
    case Releasing(id) =>
      s.stored != [] && Offer(s) == s.stored[|s.stored| - 1] && s.slots[SlotOf(s.config, id)].frameId == id
    case StoringSeq(id) => s.stored != [] && Offer(s) == s.stored[|s.stored| - 1]
    case _ => true
  }

  /** The histories agree: every published result names the frame stored under its
      id, the ids come out in order, and no call is lost. */
  ghost predicate HistoryExact(s: State)
    requires IdsExact(s)
  {
    && |s.results| + (if s.producer.Idle? then 0 else 1) == |s.offers|
    && s.writeSeq + s.dropped == |s.results|
    && PublishedIds(s.results) == seq(s.writeSeq, i requires 0 <= i < s.writeSeq => i + 1)
    && (forall i | 0 <= i < |s.results| && s.results[i].Published? ::
          1 <= s.results[i].id <= s.writeSeq && s.stored[s.results[i].id - 1] == s.offers[i])
    && (forall i | 0 <= i < |s.results| && s.results[i].Dropped? :: s.results[i].reason.HeldByReaders?)
    && (s.producer.CountingDrop? ==> s.producer.cur != WRITER_LOCK)
  }

  /** The ids of the published results, in order. */
  function PublishedIds(results: seq<PublishResult>): seq<nat> {
    if results == [] then []
    else
      var last := results[|results| - 1];
      PublishedIds(results[..|results| - 1]) + if last.Published? then [last.id] else []
  }

  /** A sampled write_seq is one that was reached, and next_after goes on only for
      an id inside the window it saw. */
  ghost predicate Aimed(s: State, call: Call, sampled: nat) {
    && 1 <= sampled <= s.writeSeq
    && Target(call, sampled) >= 1
    && (call.NextAfter? ==> Want(call.last) <= sampled < Want(call.last) + s.config.capacity)
  }

  /** The id a reader was given is one its call allows. */
  ghost predicate Fits(s: State, call: Call, sampled: nat, id: nat)
    requires s.config.capacity >= 1
  {
    && 1 <= id <= |s.stored|
    && SlotOf(s.config, id) == SlotOf(s.config, Target(call, sampled))
    && (call.NextAfter? ==> id == Want(call.last))
    && (call.Latest? ==> id >= sampled)
  }

  ghost predicate ReaderOk(s: State, r: Reader)
    requires Shape(s)
  {
    match r
    case Sampling(_, _) => true
    case Spinning(call, q, _, _) => Aimed(s, call, q)
    case Swapping(call, q, _, _, cur) => Aimed(s, call, q) && cur < WRITER_LOCK
    case Checking(call, q, _) => Aimed(s, call, q)
    case BackingOut(call, q, _) => Aimed(s, call, q)
    case Reading(call, q, id, f, m) =>
      var slot := s.slots[Home(s.config, r)];
      && Aimed(s, call, q) && Fits(s, call, q, id)
      && slot.frameId == id && f <= 4 && AgreeOn(f, m, slot.meta)
    case Holding(call, q, view) =>
      var slot := s.slots[Home(s.config, r)];
      && Aimed(s, call, q) && Fits(s, call, q, view.id)
      && slot.frameId == view.id && slot.meta == view.meta
    case Done(call, outcome) => OutcomeOk(s, call, outcome)
  }

  /** What a finished call's outcome says about the ring. */
  ghost predicate OutcomeOk(s: State, call: Call, outcome: Outcome)
    requires Shape(s)
  {
    match outcome
    case GuardDropped(view) =>
      && 1 <= view.id <= |s.stored| && view.meta == s.stored[view.id - 1].meta
      && (call.NextAfter? ==> view.id == Want(call.last))
    case Nothing => call.Latest?
    case UpToDate => call.NextAfter?
    case TooFarBehind(last, latest) =>
      && call == NextAfter(last)
      && Want(last) + s.config.capacity <= latest <= s.writeSeq
  }

  ghost predicate ReadersOk(s: State)
    requires Shape(s)
  {
    forall r | r in s.readers :: ReaderOk(s, s.readers[r])
  }

  ghost predicate Inv(s: State) {
    && Shape(s)
    && CountsExact(s)
    && IdsExact(s)
    && SlotsNewest(s)
    && SlotsShowFrames(s)
    && CopyProgress(s)
    && HistoryExact(s)
    && ReadersOk(s)
  }

  lemma InitInv(s: State)
    requires Init(s)
    ensures Inv(s)
  {
    forall k | 0 <= k < |s.slots| ensures Holders(s, k) == {} {}
  }

  // ---- Steps that leave the segment alone ----

  lemma PublishKeepsInv(s: State, data: seq<bv8>, ts: nat)
    requires Inv(s) && s.producer.Idle?
    ensures Inv(BeginPublish(s, data, ts))
  {
    hide ReadersOk, ReaderOk, Holders;
    var s' := BeginPublish(s, data, ts);
    SameHolders(s, s');
    SameReaders(s, s');
  }

  /** Holders depend on the readers alone. */
  lemma SameHolders(s: State, s': State)
    requires s.config == s'.config && s.config.capacity >= 1 && s.readers == s'.readers
    ensures forall k: nat :: Holders(s, k) == Holders(s', k)
  {
  }

  /** Readers stay well placed when the ids they rely on stay where they are. */
  lemma SameReaders(s: State, s': State)
    requires Shape(s) && Shape(s') && s.config == s'.config && s.readers == s'.readers
    requires s.writeSeq <= s'.writeSeq && s.stored <= s'.stored
    requires forall k | 0 <= k < |s.slots| && Holders(s, k) != {} ::
               s.slots[k].frameId == s'.slots[k].frameId && s.slots[k].meta == s'.slots[k].meta
    requires ReadersOk(s)
    ensures ReadersOk(s')
  {
    forall r | r in s'.readers ensures ReaderOk(s', s'.readers[r]) {
      var reader := s.readers[r];
      assert ReaderOk(s, reader);
      if reader.Reading? || reader.Holding? {
        assert r in Holders(s, Home(s.config, reader));
      }
    }
  }

  // ---- Steps of the producer ----

  lemma ClaimKeepsInv(s: State)
    requires Inv(s) && s.producer.Claiming?
    ensures Inv(AdvanceProducer(s))
  {
    hide ReadersOk, ReaderOk;
    var s' := AdvanceProducer(s);
    SameHolders(s, s');
    SameReaders(s, s');
  }

  lemma DropKeepsInv(s: State)
    requires Inv(s) && Uncrowded(s) && (s.producer.Refused? || s.producer.CountingDrop?)
    ensures Inv(AdvanceProducer(s))
  {
    hide ReadersOk, ReaderOk;
    var s' := AdvanceProducer(s);
    SameHolders(s, s');
    SameReaders(s, s');
    if s.producer.CountingDrop? {
      assert s'.results[..|s'.results| - 1] == s.results;
    }
  }

  lemma CopyByte(data: seq<bv8>, offered: seq<bv8>, n: nat)
    requires n < |data| == |offered| && data[..n] == offered[..n]
    ensures var data' := data[n := offered[n]];
            data'[..n + 1] == offered[..n + 1] && (n + 1 == |data| ==> data' == offered)
  {
    var data' := data[n := offered[n]];
    assert data'[..n] == data[..n];
    assert data'[..n + 1] == data'[..n] + [data'[n]] && offered[..n + 1] == offered[..n] + [offered[n]];
    assert n + 1 == |data| ==> data'[..n + 1] == data' && offered[..n + 1] == offered;
  }

  lemma CopyKeepsInv(s: State)
    requires Inv(s) && s.producer.Copying?
    ensures Inv(AdvanceProducer(s))
  {
    hide ReadersOk, ReaderOk, HistoryExact, Holders;
    var s' := AdvanceProducer(s);
    SameHolders(s, s');
    SameReaders(s, s');
    SameHistory(s, s');
    CopyByte(s.slots[SlotOf(s.config, s.producer.id)].data, Offer(s).data, s.producer.count);
  }

  lemma SameHistory(s: State, s': State)
    requires IdsExact(s) && HistoryExact(s) && IdsExact(s')
    requires s'.writeSeq == s.writeSeq && s'.dropped == s.dropped && s.stored <= s'.stored
    requires s'.offers == s.offers && s'.results == s.results
    requires !s.producer.Idle? && !s'.producer.Idle? && !s'.producer.CountingDrop?
    ensures HistoryExact(s')
  {
  }

  lemma MetaKeepsInv(s: State)
    requires Inv(s) && s.producer.WritingMeta?
    ensures Inv(AdvanceProducer(s))
  {
    hide ReadersOk, ReaderOk;
    var s' := AdvanceProducer(s);
    SameHolders(s, s');
    SameReaders(s, s');
  }

  lemma StoreIdKeepsInv(s: State)
    requires Inv(s) && s.producer.StoringId?
    ensures Inv(AdvanceProducer(s))
  {
    hide ReadersOk, ReaderOk, PublishedIds, Holders;
    var s' := AdvanceProducer(s);
    SameHolders(s, s');
    SameReaders(s, s');
  }

  lemma ReleaseKeepsInv(s: State)
    requires Inv(s) && s.producer.Releasing?
    ensures Inv(AdvanceProducer(s))
  {
    hide ReadersOk, ReaderOk;
    var s' := AdvanceProducer(s);
    SameHolders(s, s');
    SameReaders(s, s');
  }

  lemma StoreSeqKeepsInv(s: State)
    requires Inv(s) && s.producer.StoringSeq?
    ensures Inv(AdvanceProducer(s))
  {
    hide ReadersOk, ReaderOk;
    var s' := AdvanceProducer(s);
    SameHolders(s, s');
    SameReaders(s, s');
    assert s'.results[..|s'.results| - 1] == s.results;
  }

  // ---- Steps of the readers ----

  /** Only reader r's slot changes holders, and only by r. */
  lemma HoldersMove(s: State, r: nat, next: Reader)
    requires Shape(s) && r in s.readers
    requires next.Counts() ==> Home(s.config, next) == Home(s.config, s.readers[r])
    ensures var s' := MoveReader(s, r, next);
            var home := Home(s.config, s.readers[r]);
            && (forall k: nat | k != home :: Holders(s', k) == Holders(s, k) - {r})
            && (forall k: nat | k != home :: r !in Holders(s, k))
            && (r in Holders(s, home) <==> s.readers[r].Counts())
            && Holders(s', home) == if next.Counts() then Holders(s, home) + {r} else Holders(s, home) - {r}
  {
  }

  function One(counts: bool): nat {
    if counts then 1 else 0
  }

  /** The reader's step changes its slot's counter exactly as it changes whether
      the reader counts, and never enters a locked slot. */
  ghost predicate CountsInStep(s: State, reader: Reader, next: Reader)
    requires Shape(s)
  {
    var k := Home(s.config, reader);
    var count := AdvanceCount(reader, s.slots[k]);
    && (next.Counts() ==> Home(s.config, next) == k)
    && (if Locked(s, k) then !next.Counts() && count == s.slots[k].refCount
        else count + One(reader.Counts()) == s.slots[k].refCount + One(next.Counts()))
  }

  lemma MoveKeepsCounts(s: State, r: nat, next: Reader)
    requires Shape(s) && CountsExact(s) && r in s.readers
    requires CountsInStep(s, s.readers[r], next)
    ensures CountsExact(MoveReader(s, r, next))
  {
    var s' := MoveReader(s, r, next);
    var home := Home(s.config, s.readers[r]);
    HoldersMove(s, r, next);
    forall k | 0 <= k < |s'.slots|
      ensures if Locked(s', k) then s'.slots[k].refCount == WRITER_LOCK && Holders(s', k) == {}
              else s'.slots[k].refCount == |Holders(s', k)|
    {
      assert Locked(s', k) == Locked(s, k);
      if k != home {
        assert Holders(s', k) == Holders(s, k);
      }
    }
  }

  /** A reader step that keeps the counter in line with the holders keeps the invariant,
      provided the reader's new position is a good one. */
  lemma MoveKeepsInv(s: State, r: nat, next: Reader)
    requires Inv(s) && r in s.readers
    requires CountsInStep(s, s.readers[r], next)
    requires ReaderOk(s, next)
    ensures Inv(MoveReader(s, r, next))
  {
    hide CopyProgress, HistoryExact, IdsExact, SlotsShowFrames, SlotsNewest, ReaderOk, CountsExact, CountsInStep;
    var s' := MoveReader(s, r, next);
    MoveKeepsCounts(s, r, next);
    MoveKeepsSlots(s, r, next);
    forall x | x in s'.readers ensures ReaderOk(s', s'.readers[x]) {
      SlotsSameForReader(s, s', if x == r then next else s.readers[x]);
    }
  }

  /** Reader steps change no slot but for its counter. */
  ghost predicate OnlyCounts(s: State, s': State) {
    && Shape(s) && Shape(s') && s'.config == s.config
    && s'.writeSeq == s.writeSeq && s'.stored == s.stored && s'.producer == s.producer
    && s'.offers == s.offers && s'.results == s.results && s'.dropped == s.dropped
    && forall k | 0 <= k < |s.slots| :: s'.slots[k] == s.slots[k].(refCount := s'.slots[k].refCount)
  }

  lemma SlotsSame(s: State, s': State)
    requires Inv(s) && OnlyCounts(s, s')
    ensures IdsExact(s') && SlotsNewest(s') && SlotsShowFrames(s') && CopyProgress(s') && HistoryExact(s')
  {
  }

  lemma MoveKeepsSlots(s: State, r: nat, next: Reader)
    requires Inv(s) && r in s.readers
    ensures var s' := MoveReader(s, r, next);
            && OnlyCounts(s, s')
            && IdsExact(s') && SlotsNewest(s') && SlotsShowFrames(s') && CopyProgress(s') && HistoryExact(s')
  {
    hide CopyProgress, HistoryExact, IdsExact, SlotsShowFrames, SlotsNewest, ReadersOk, CountsExact;
    SlotsSame(s, MoveReader(s, r, next));
  }

  lemma SlotsSameForReader(s: State, s': State, reader: Reader)
    requires OnlyCounts(s, s') && ReaderOk(s, reader)
    ensures ReaderOk(s', reader)
  {
  }

  /** A reader inside a slot keeps the producer out of it. */
  lemma HolderExcludesWriter(s: State, r: nat)
    requires Inv(s) && r in s.readers && s.readers[r].Counts()
    ensures !Locked(s, Home(s.config, s.readers[r]))
    ensures 1 <= s.slots[Home(s.config, s.readers[r])].refCount
  {
    var k := Home(s.config, s.readers[r]);
    assert r in Holders(s, k);
  }

  lemma StartKeepsInv(s: State, r: nat, call: Call)
    requires Inv(s) && r !in s.readers
    ensures Inv(s.(readers := s.readers[r := Sampling(call, NEXT_TRIES)]))
  {
    hide CopyProgress, HistoryExact, IdsExact, SlotsShowFrames, SlotsNewest;
    var s' := s.(readers := s.readers[r := Sampling(call, NEXT_TRIES)]);
    SlotsSame(s, s');
    forall k: nat ensures Holders(s', k) == Holders(s, k) {}
    forall x | x in s'.readers ensures ReaderOk(s', s'.readers[x]) {
      if x != r {
        assert ReaderOk(s, s.readers[x]);
      }
    }
  }

  lemma AdvanceCountsInStep(s: State, reader: Reader)
    requires Shape(s) && CountsExact(s) && Uncrowded(s) && ReaderOk(s, reader)
    requires !reader.Holding? && !reader.Done?
    requires reader.Counts() ==> !Locked(s, Home(s.config, reader)) && 1 <= s.slots[Home(s.config, reader)].refCount
    ensures CountsInStep(s, reader, AdvanceReader(s, reader, s.slots[Home(s.config, reader)]))
    ensures s.slots[Home(s.config, reader)].refCount <= WRITER_LOCK
  {
    hide Aimed, Fits;
    var k := Home(s.config, reader);
    assert !Locked(s, k) ==> s.slots[k].refCount == |Holders(s, k)|;
  }

  lemma SampleOk(s: State, call: Call, tries: nat)
    requires Shape(s)
    ensures ReaderOk(s, Sample(s, call, tries))
  {
  }

  /** A reader that holds its slot finds there an id that its call allows. */
  lemma CheckOk(s: State, call: Call, sampled: nat)
    requires Shape(s) && IdsExact(s) && SlotsNewest(s) && Aimed(s, call, sampled)
    ensures var k := SlotOf(s.config, Target(call, sampled));
            var id := s.slots[k].frameId;
            (call.Latest? || id == Want(call.last)) ==> Fits(s, call, sampled, id)
  {
    var k := SlotOf(s.config, Target(call, sampled));
    assert s.slots[k].frameId >= Target(call, sampled);
  }

  lemma AdvanceOk(s: State, reader: Reader)
    requires Shape(s) && IdsExact(s) && SlotsNewest(s) && ReaderOk(s, reader)
    requires !reader.Holding? && !reader.Done?
    requires s.slots[Home(s.config, reader)].refCount <= WRITER_LOCK
    ensures ReaderOk(s, AdvanceReader(s, reader, s.slots[Home(s.config, reader)]))
  {
    hide Aimed, Fits, IdsExact, SlotsNewest, Sample;
    match reader {
      case Sampling(call, tries) => SampleOk(s, call, tries);
      case Spinning(_, _, _, _) =>
      case Swapping(_, _, _, _, _) =>
      case Checking(call, q, _) => CheckOk(s, call, q);
      case BackingOut(_, _, _) =>
      case Reading(_, _, _, _, _) =>
    }
  }

  lemma ReaderKeepsInv(s: State, r: nat)
    requires Inv(s) && Uncrowded(s) && r in s.readers && !s.readers[r].Holding? && !s.readers[r].Done?
    ensures Inv(Apply(s, ReaderStep(r)))
  {
    hide CopyProgress, HistoryExact, IdsExact, SlotsShowFrames, SlotsNewest, ReaderOk, CountsExact, CountsInStep;
    hide AdvanceReader;
    var reader := s.readers[r];
    var k := Home(s.config, reader);
    assert ReaderOk(s, reader);
    if reader.Counts() {
      HolderExcludesWriter(s, r);
    }
    AdvanceCountsInStep(s, reader);
    AdvanceOk(s, reader);
    MoveKeepsInv(s, r, AdvanceReader(s, reader, s.slots[k]));
  }

  lemma DropGuardKeepsInv(s: State, r: nat)
    requires Inv(s) && r in s.readers && s.readers[r].Holding?
    ensures Inv(Apply(s, DropGuard(r)))
  {
    HolderExcludesWriter(s, r);
    assert ReaderOk(s, s.readers[r]);
    MoveKeepsInv(s, r, Done(s.readers[r].call, GuardDropped(s.readers[r].view)));
  }

  /** Every enabled step keeps the invariant. */
  lemma StepKeepsInv(s: State, e: Event, s': State)
    requires Inv(s) && Uncrowded(s) && Step(s, e, s')
    ensures Inv(s')
  {
    match e {
      case Publish(data, ts) => PublishKeepsInv(s, data, ts);
      case Start(r, call) => StartKeepsInv(s, r, call);
      case ReaderStep(r) => ReaderKeepsInv(s, r);
      case DropGuard(r) => DropGuardKeepsInv(s, r);
      case ProducerStep =>
        match s.producer {
          case Claiming(_) => ClaimKeepsInv(s);
          case Refused(_) => DropKeepsInv(s);
          case CountingDrop(_, _) => DropKeepsInv(s);
          case Copying(_, _) => CopyKeepsInv(s);
          case WritingMeta(_, _) => MetaKeepsInv(s);
          case StoringId(_) => StoreIdKeepsInv(s);
          case Releasing(_) => ReleaseKeepsInv(s);
          case StoringSeq(_) => StoreSeqKeepsInv(s);
        }
    }
  }

  /** The invariant holds all along every run. */
  lemma {:induction false} RunKeepsInv(states: seq<State>, events: seq<Event>, i: nat)
    requires IsRun(states, events) && i < |states|
    ensures Inv(states[i])
  {
    if i == 0 {
      InitInv(states[0]);
    } else {
      RunKeepsInv(states, events, i - 1);
      StepKeepsInv(states[i - 1], events[i - 1], states[i]);
    }
  }
}
