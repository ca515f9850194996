/** The single-producer, many-consumer frame ring as a system of atomic steps.
    Every load, store, compare-and-swap and byte written is one step, and the
    steps of the producer and of any number of readers interleave freely
    under sequential consistency. */
module Ring {
  const WRITER_LOCK: nat := 0xFFFF_FFFF
  const MAX_ID: nat := 0xFFFF_FFFF_FFFF_FFFF
  const ACQUIRE_SPINS: nat := 64
  const NEXT_TRIES: nat := 4 * ACQUIRE_SPINS

  datatype Meta = Meta(ts: nat, width: nat, height: nat, format: nat)

  /** A frame as it was handed to `publish`. */
  datatype Frame = Frame(data: seq<bv8>, meta: Meta)

  datatype Slot = Slot(refCount: nat, frameId: nat, meta: Meta, data: seq<bv8>)

  datatype Config = Config(capacity: nat, frameSize: nat, width: nat, height: nat, format: nat)

  datatype DropReason = HeldByReaders(slot: nat, readers: nat) | WriterLockHeld(slot: nat)

  datatype PublishResult = Published(id: nat) | Dropped(reason: DropReason)

  /** Where the producer is inside `publish`; id is the frame id it is aiming at. */
  datatype Producer =
    | Idle
    | Claiming(id: nat)
    | Refused(id: nat)
    | CountingDrop(id: nat, cur: nat)
    | Copying(id: nat, count: nat)
    | WritingMeta(id: nat, field: nat)
    | StoringId(id: nat)
    | Releasing(id: nat)
    | StoringSeq(id: nat)

  datatype Call = Latest | NextAfter(last: nat)

  datatype View = View(id: nat, meta: Meta)

  datatype Outcome =
    | GuardDropped(view: View)
    | Nothing
    | UpToDate
    | TooFarBehind(lastSeen: nat, latest: nat)

  /** Where one reader is inside `latest` or `next_after`, or with the guard it
      was given. seq is the write_seq it sampled last. */
  datatype Reader =
    | Sampling(call: Call, tries: nat)
    | Spinning(call: Call, sampled: nat, tries: nat, spins: nat)
    | Swapping(call: Call, sampled: nat, tries: nat, spins: nat, cur: nat)
    | Checking(call: Call, sampled: nat, tries: nat)
    | BackingOut(call: Call, sampled: nat, tries: nat)
    | Reading(call: Call, sampled: nat, id: nat, field: nat, meta: Meta)
    | Holding(call: Call, sampled: nat, view: View)
    | Done(call: Call, outcome: Outcome)
  {
    /** The reader has added one to its slot's count and not yet taken it back. */
    predicate Counts() {
      Checking? || BackingOut? || Reading? || Holding?
    }
  }

  /** The segment, the program counters, and three histories: the frames offered to
      well-sized `publish` calls, the results those calls returned, and the frames
      whose id has been stored. */
  datatype State = State(
    config: Config,
    slots: seq<Slot>,
    writeSeq: nat,
    dropped: nat,
    producer: Producer,
    readers: map<nat, Reader>,
    offers: seq<Frame>,
    results: seq<PublishResult>,
    stored: seq<Frame>)

  datatype Event =
    | Publish(data: seq<bv8>, ts: nat)
    | ProducerStep
    | Start(reader: nat, call: Call)
    | ReaderStep(reader: nat)
    | DropGuard(reader: nat)

  ghost predicate ValidConfig(c: Config) {
    1 <= c.capacity <= 4096
  }

  function SlotOf(c: Config, id: nat): (k: nat)
    requires c.capacity >= 1
    ensures k < c.capacity
  {
    id % c.capacity
  }

  /** last + 1, saturating as u64 does. */
  function Want(last: nat): nat {
    if last >= MAX_ID then MAX_ID else last + 1
  }

  /** The id whose slot a call goes for, having sampled write_seq as seq. */
  function Target(call: Call, sampled: nat): nat {
    match call
    case Latest => sampled
    case NextAfter(last) => Want(last)
  }

  /** fetch_sub(1) on a u32. */
  function Decrement(n: nat): nat {
    if n == 0 then WRITER_LOCK else n - 1
  }

  function SetField(m: Meta, from: Meta, field: nat): Meta {
    match field
    case 0 => m.(ts := from.ts)
    case 1 => m.(width := from.width)
    case 2 => m.(height := from.height)
    case 3 => m.(format := from.format)
    case _ => m
  }

  ghost predicate Shape(s: State) {
    && ValidConfig(s.config)
    && |s.slots| == s.config.capacity
    && (forall k | 0 <= k < |s.slots| :: |s.slots[k].data| == s.config.frameSize)
    && (!s.producer.Idle? ==> s.offers != [] && |Offer(s).data| == s.config.frameSize)
    && (s.producer.Copying? ==> s.producer.count < s.config.frameSize)
    && (s.producer.WritingMeta? ==> s.producer.field < 4)
  }

  /** The frame of the publish call in progress. */
  function Offer(s: State): Frame
    requires s.offers != []
  {
    s.offers[|s.offers| - 1]
  }

  ghost predicate Init(s: State) {
    && ValidConfig(s.config)
    && s.slots == seq(s.config.capacity, _ =>
         Slot(0, 0, Meta(0, 0, 0, 0), seq(s.config.frameSize, _ => 0)))
    && s.writeSeq == 0 && s.dropped == 0 && s.producer == Idle && s.readers == map[]
    && s.offers == [] && s.results == [] && s.stored == []
  }

  ghost predicate Enabled(s: State, e: Event) {
    match e
    case Publish(_, _) => s.producer.Idle?
    case ProducerStep => !s.producer.Idle?
    case Start(r, _) => r !in s.readers
    case ReaderStep(r) => r in s.readers && !s.readers[r].Holding? && !s.readers[r].Done?
    case DropGuard(r) => r in s.readers && s.readers[r].Holding?
  }

  /** Entry into `publish`: the size check, then the load of write_seq. */
  function BeginPublish(s: State, data: seq<bv8>, ts: nat): State {
    if |data| != s.config.frameSize || s.writeSeq >= MAX_ID then s
    else
      var meta := Meta(ts, s.config.width, s.config.height, s.config.format);
      s.(producer := Claiming(s.writeSeq + 1), offers := s.offers + [Frame(data, meta)])
  }

  function Finish(s: State, result: PublishResult): State {
    s.(producer := Idle, results := s.results + [result])
  }

  function AfterCopy(s: State, id: nat, count: nat): Producer {
    if count < s.config.frameSize then Copying(id, count) else WritingMeta(id, 0)
  }

  function AdvanceProducer(s: State): State
    requires Shape(s) && !s.producer.Idle?
  {
    match s.producer
    case Claiming(id) =>
      var k := SlotOf(s.config, id);
      if s.slots[k].refCount == 0 then
        s.(slots := s.slots[k := s.slots[k].(refCount := WRITER_LOCK)], producer := AfterCopy(s, id, 0))
      else
        s.(producer := Refused(id))
    case Refused(id) =>
      s.(producer := CountingDrop(id, s.slots[SlotOf(s.config, id)].refCount))
    case CountingDrop(id, cur) =>
      var k := SlotOf(s.config, id);
      Finish(s.(dropped := s.dropped + 1),
             Dropped(if cur == WRITER_LOCK then WriterLockHeld(k) else HeldByReaders(k, cur)))
    case Copying(id, n) =>
      var k := SlotOf(s.config, id);
      s.(slots := s.slots[k := s.slots[k].(data := s.slots[k].data[n := Offer(s).data[n]])],
         producer := AfterCopy(s, id, n + 1))
    case WritingMeta(id, f) =>
      var k := SlotOf(s.config, id);
      s.(slots := s.slots[k := s.slots[k].(meta := SetField(s.slots[k].meta, Offer(s).meta, f))],
         producer := if f < 3 then WritingMeta(id, f + 1) else StoringId(id))
    case StoringId(id) =>
      var k := SlotOf(s.config, id);
      s.(slots := s.slots[k := s.slots[k].(frameId := id)], producer := Releasing(id),
         stored := s.stored + [Offer(s)])
    case Releasing(id) =>
      var k := SlotOf(s.config, id);
      s.(slots := s.slots[k := s.slots[k].(refCount := 0)], producer := StoringSeq(id))
    case StoringSeq(id) =>
      Finish(s.(writeSeq := id), Published(id))
  }

  /** A reader samples write_seq and decides what to go for. */
  function Sample(s: State, call: Call, tries: nat): Reader {
    var sampled := s.writeSeq;
    match call
    case Latest =>
      if sampled == 0 then Done(call, Nothing) else Spinning(call, sampled, tries, ACQUIRE_SPINS)
    case NextAfter(last) =>
      if tries == 0 then Done(call, UpToDate)
      else if sampled == 0 || Want(last) > sampled then Done(call, UpToDate)
      else if sampled - Want(last) >= s.config.capacity then Done(call, TooFarBehind(last, sampled))
      else Spinning(call, sampled, tries - 1, ACQUIRE_SPINS)
  }

  /** The next position of a reader whose slot currently holds `slot`. */
  function AdvanceReader(s: State, r: Reader, slot: Slot): Reader
    requires !r.Holding? && !r.Done?
  {
    match r
    case Sampling(call, tries) => Sample(s, call, tries)
    case Spinning(call, q, tries, spins) =>
      if spins == 0 then (if call.Latest? then Done(call, Nothing) else Sampling(call, tries))
      else if slot.refCount == WRITER_LOCK then Spinning(call, q, tries, spins - 1)
      else Swapping(call, q, tries, spins - 1, slot.refCount)
    case Swapping(call, q, tries, spins, cur) =>
      if slot.refCount == cur then Checking(call, q, tries) else Spinning(call, q, tries, spins)
    case Checking(call, q, tries) =>
      if call.NextAfter? && slot.frameId != Want(call.last) then BackingOut(call, q, tries)
      else Reading(call, q, slot.frameId, 0, Meta(0, 0, 0, 0))
    case BackingOut(call, q, tries) => Sampling(call, tries)
    case Reading(call, q, id, f, m) =>
      if f < 4 then Reading(call, q, id, f + 1, SetField(m, slot.meta, f))
      else Holding(call, q, View(id, m))
  }

  /** What the same step does to the slot's counter. */
  function AdvanceCount(r: Reader, slot: Slot): nat {
    match r
    case Swapping(_, _, _, _, cur) => if slot.refCount == cur then cur + 1 else slot.refCount
    case BackingOut(_, _, _) => Decrement(slot.refCount)
    case Holding(_, _, _) => Decrement(slot.refCount)
    case _ => slot.refCount
  }

  /** The slot a reader is dealing with. */
  function Home(c: Config, r: Reader): nat
    requires c.capacity >= 1
  {
    if r.Sampling? || r.Done? then 0 else SlotOf(c, Target(r.call, r.sampled))
  }

  function MoveReader(s: State, r: nat, next: Reader): State
    requires Shape(s) && r in s.readers
  {
    var k := Home(s.config, s.readers[r]);
    s.(slots := s.slots[k := s.slots[k].(refCount := AdvanceCount(s.readers[r], s.slots[k]))],
       readers := s.readers[r := next])
  }

  function Apply(s: State, e: Event): State
    requires Shape(s) && Enabled(s, e)
  {
    match e
    case Publish(data, ts) => BeginPublish(s, data, ts)
    case ProducerStep => AdvanceProducer(s)
    case Start(r, call) => s.(readers := s.readers[r := Sampling(call, NEXT_TRIES)])
    case ReaderStep(r) =>
      MoveReader(s, r, AdvanceReader(s, s.readers[r], s.slots[Home(s.config, s.readers[r])]))
    case DropGuard(r) => MoveReader(s, r, Done(s.readers[r].call, GuardDropped(s.readers[r].view)))
  }

  /** The readers that count towards slot k. */
  ghost function Holders(s: State, k: nat): set<nat>
    requires s.config.capacity >= 1
  {
    set r | r in s.readers && s.readers[r].Counts() && Home(s.config, s.readers[r]) == k
  }

  /** No slot has so many holders that one more would spell WRITER_LOCK. */
  ghost predicate Uncrowded(s: State)
    requires s.config.capacity >= 1
  {
    forall k: nat :: |Holders(s, k)| < WRITER_LOCK - 1
  }

  ghost predicate Step(s: State, e: Event, s': State) {
    Shape(s) && Enabled(s, e) && s' == Apply(s, e)
  }

  /** A run: every state follows from the one before by an enabled step. */
  ghost predicate IsRun(states: seq<State>, events: seq<Event>) {
    && |states| == |events| + 1
    && Init(states[0])
    && (forall i | 0 <= i < |events| :: Step(states[i], events[i], states[i + 1]) && Uncrowded(states[i]))
  }
}
