/** The ring as the program lays it out: counters, ids and metadata per slot, and one area
    of bytes that the slots share. Each method makes exactly the transition of RingAlone. */
module FrameRing {
  import opened Common
  import opened Ring
  import opened RingAlone

  /** Where slot k's bytes begin in the data area. */
  function Offset(k: nat, frameSize: nat): nat {
    k * frameSize
  }

  lemma OffsetNext(k: nat, frameSize: nat)
    ensures Offset(k + 1, frameSize) == Offset(k, frameSize) + frameSize
  {
  }

  /** Slots do not share bytes. */
  lemma {:induction false} Apart(i: nat, j: nat, frameSize: nat)
    requires i < j
    ensures Offset(i, frameSize) + frameSize <= Offset(j, frameSize)
    decreases j - i
  {
    OffsetNext(j - 1, frameSize);
    hide Offset;
    if i < j - 1 {
      Apart(i, j - 1, frameSize);
    } else {
      assert Offset(i + 1, frameSize) == Offset(j, frameSize);
    }
  }

  function Stretch(area: seq<bv8>, k: nat, frameSize: nat): seq<bv8>
    requires Offset(k, frameSize) + frameSize <= |area|
  {
    area[Offset(k, frameSize)..Offset(k, frameSize) + frameSize]
  }

  /** Writing slot k's stretch leaves every other slot's as it was. */
  lemma OtherStretches(before: seq<bv8>, after: seq<bv8>, k: nat, j: nat, capacity: nat, frameSize: nat)
    requires |before| == |after| == Offset(capacity, frameSize)
    requires j < capacity && k < capacity && j != k
    requires forall x | 0 <= x < |after| && !(Offset(k, frameSize) <= x < Offset(k, frameSize) + frameSize) ::
               after[x] == before[x]
    ensures Offset(j, frameSize) + frameSize <= |after|
    ensures Stretch(after, j, frameSize) == Stretch(before, j, frameSize)
  {
    hide Offset;
    Apart(j, capacity, frameSize);
    Apart(k, capacity, frameSize);
    if j < k { Apart(j, k, frameSize); } else { Apart(k, j, frameSize); }
  }

  datatype Acquired =
    | Held(guard: Guard)
    | Busy
    | Mismatch(actual: nat)

  /** Taking a slot, with or without an id to check once it is taken. */
  function TryAlone(g: Segment, k: nat, expected: Option<nat>): (Segment, Acquired)
    requires Sound(g) && k < |g.slots|
  {
    var slot := g.slots[k];
    if slot.refCount == WRITER_LOCK then (g, Busy)
    else if expected.Some? && slot.frameId != expected.value then (g, Mismatch(slot.frameId))
    else var (taken, got) := Take(g, k); (taken, Held(got.guard))
  }

  class FrameRing {
    const config: Config
    const refCounts: array<nat>
    const frameIds: array<nat>
    const metas: array<Meta>
    const bytes: array<bv8>
    var writeSeq: nat
    var dropped: nat

    ghost predicate Valid() {
      && ValidConfig(config)
      && refCounts.Length == frameIds.Length == metas.Length == config.capacity
      && bytes.Length == Offset(config.capacity, config.frameSize)
      && refCounts != frameIds
      && (bytes as object) !in {refCounts, frameIds, metas}
    }

    /** Slot k's own stretch of the data area. */
    ghost function Bytes(k: nat): (data: seq<bv8>)
      requires Valid() && k < config.capacity
      reads bytes
      ensures |data| == config.frameSize
    {
      Apart(k, config.capacity, config.frameSize);
      Stretch(bytes[..], k, config.frameSize)
    }

    ghost function SlotAt(k: nat): (slot: Slot)
      requires Valid() && k < config.capacity
      reads refCounts, frameIds, metas, bytes
    {
      Slot(refCounts[k], frameIds[k], metas[k], Bytes(k))
    }

    /** The segment as a value. */
    ghost function View(): (g: Segment)
      requires Valid()
      reads this, refCounts, frameIds, metas, bytes
      ensures Sound(g)
    {
      var slots := seq(config.capacity, k requires 0 <= k < config.capacity && Valid()
                                          reads refCounts, frameIds, metas, bytes => SlotAt(k));
      Segment(config, slots, writeSeq, dropped)
    }

    /** The value is what the slots say one by one. */
    lemma ViewIs(slots: seq<Slot>)
      requires Valid()
      requires |slots| == config.capacity && forall k: nat | k < config.capacity :: slots[k] == SlotAt(k)
      ensures View() == Segment(config, slots, writeSeq, dropped)
    {
    }

    lemma SlotsAre()
      requires Valid()
      ensures View().config == config && View().writeSeq == writeSeq && View().dropped == dropped
      ensures |View().slots| == config.capacity
      ensures forall k: nat | k < config.capacity :: View().slots[k] == SlotAt(k)
    {
    }

    lemma RefCountIs(k: nat)
      requires Valid() && k < config.capacity
      ensures SlotAt(k).refCount == refCounts[k] && SlotAt(k).frameId == frameIds[k] && SlotAt(k).meta == metas[k]
    {
    }

    constructor (config: Config)
      requires ValidConfig(config)
      ensures Valid() && this.config == config
      ensures fresh(refCounts) && fresh(frameIds) && fresh(metas) && fresh(bytes)
      ensures View() == Segment(config, seq(config.capacity, _ =>
                          Slot(0, 0, Meta(0, 0, 0, 0), seq(config.frameSize, _ => 0))), 0, 0)
    {
      this.config := config;
      refCounts := new nat[config.capacity](_ => 0);
      frameIds := new nat[config.capacity](_ => 0);
      metas := new Meta[config.capacity](_ => Meta(0, 0, 0, 0));
      bytes := new bv8[Offset(config.capacity, config.frameSize)](_ => 0);
      writeSeq, dropped := 0, 0;
      new;
      forall k: nat | k < config.capacity
        ensures SlotAt(k) == Slot(0, 0, Meta(0, 0, 0, 0), seq(config.frameSize, _ => 0))
      {
        Apart(k, config.capacity, config.frameSize);
      }
    }

    /** Copying one frame's bytes into a slot leaves the other slots' bytes alone. */
    method CopyIn(k: nat, data: seq<bv8>)
      requires Valid() && k < config.capacity && |data| == config.frameSize
      modifies bytes
      ensures Bytes(k) == data
      ensures forall j: nat | j < config.capacity && j != k :: Bytes(j) == old(Bytes(j))
    {
      hide Offset;
      Apart(k, config.capacity, config.frameSize);
      var from, n := Offset(k, config.frameSize), 0;
      ghost var before := bytes[..];
      while n < |data|
        invariant n <= |data|
        invariant forall i | 0 <= i < n :: bytes[from + i] == data[i]
        invariant forall x | 0 <= x < bytes.Length && !(from <= x < from + |data|) :: bytes[x] == before[x]
      {
        bytes[from + n] := data[n];
        n := n + 1;
      }
      forall j: nat | j < config.capacity && j != k ensures Bytes(j) == old(Bytes(j)) {
        OtherStretches(before, bytes[..], k, j, config.capacity, config.frameSize);
      }
    }

    /** What `publish` does to a slot it has found free: lock it, copy the bytes, write the
        metadata and the id, and release it. */
    method Fill(k: nat, id: nat, data: seq<bv8>, meta: Meta)
      requires Valid() && k < config.capacity && |data| == config.frameSize
      modifies refCounts, frameIds, metas, bytes
      ensures View() == old(View()).(slots := old(View()).slots[k := Slot(0, id, meta, data)])
    {
      hide Stretch, Offset, View;
      SlotsAre();
      ghost var g := View();
      refCounts[k] := WRITER_LOCK;
      label Locked:
      CopyIn(k, data);
      label Copied:
      metas[k] := meta;
      frameIds[k] := id;
      refCounts[k] := 0;
      forall j: nat | j < config.capacity && j != k ensures SlotAt(j) == g.slots[j] {
        assert g.slots[j] == old(SlotAt(j));
        assert old@Locked(Bytes(j)) == old(Bytes(j));
        assert Bytes(j) == old@Copied(Bytes(j));
      }
      assert Bytes(k) == old@Copied(Bytes(k));
      ViewIs(g.slots[k := Slot(0, id, meta, data)]);
    }

    method Publish(data: seq<bv8>, ts: nat) returns (answer: PublishAnswer)
      requires Valid()
      modifies this, refCounts, frameIds, metas, bytes
      ensures Valid()
      ensures (View(), answer) == PublishAlone(old(View()), data, ts)
    {
      hide SlotAt, View;
      SlotsAre();
      ghost var g := View();
      if |data| != config.frameSize {
        return InvalidFrameSize(config.frameSize, |data|);
      }
      if writeSeq >= MAX_ID {
        return IdOverflow;
      }
      var nextId := writeSeq + 1;
      var k := SlotOf(config, nextId);
      RefCountIs(k);
      if refCounts[k] != 0 {
        var cur := refCounts[k];
        dropped := dropped + 1;
        ViewIs(g.slots);
        return Answered(Dropped(if cur == WRITER_LOCK then WriterLockHeld(k) else HeldByReaders(k, cur)));
      }
      Fill(k, nextId, data, Meta(ts, config.width, config.height, config.format));
      SlotsAre();
      ghost var filled := View().slots;
      writeSeq := nextId;
      ViewIs(filled);
      return Answered(Published(nextId));
    }

    /** Changing one slot's counter. */
    method SetCount(k: nat, count: nat)
      requires Valid() && k < config.capacity
      modifies refCounts
      ensures refCounts[k] == count
      ensures forall j: nat | j < config.capacity && j != k :: refCounts[j] == old(refCounts[j])
      ensures View() == old(View()).(slots := old(View()).slots[k := old(SlotAt(k)).(refCount := count)])
    {
      hide Stretch, Offset, View;
      SlotsAre();
      ghost var g := View();
      refCounts[k] := count;
      forall j: nat | j < config.capacity
        ensures SlotAt(j) == (if j == k then g.slots[k].(refCount := count) else g.slots[j])
      {
        assert g.slots[j] == old(SlotAt(j));
        assert Bytes(j) == old(Bytes(j));
      }
      ViewIs(g.slots[k := g.slots[k].(refCount := count)]);
    }

    /** Up to 64 attempts to add one to the slot's counter; the id is checked after that. */
    method TryAcquire(k: nat, expected: Option<nat>) returns (result: Acquired)
      requires Valid() && k < config.capacity
      modifies refCounts
      ensures (View(), result) == TryAlone(old(View()), k, expected)
    {
      hide SlotAt, View;
      SlotsAre();
      RefCountIs(k);
      ghost var g := View();
      var spins := 0;
      while spins < ACQUIRE_SPINS
        invariant View() == g && refCounts[k] == old(refCounts[k])
        invariant spins > 0 ==> refCounts[k] == WRITER_LOCK
      {
        var cur := refCounts[k];
        spins := spins + 1;
        if cur == WRITER_LOCK {
          continue;
        }
        RefCountIs(k);
        SlotsAre();
        SetCount(k, cur + 1);
        var actual := frameIds[k];
        if expected.Some? && actual != expected.value {
          RefCountIs(k);
          SlotsAre();
          SetCount(k, Decrement(refCounts[k]));
          assert View().slots == g.slots;
          return Mismatch(actual);
        }
        return Held(Guard(k, ViewOf(k)));
      }
      return Busy;
    }

    /** The id and metadata that a guard hands out. */
    function ViewOf(k: nat): Ring.View
      requires Valid() && k < config.capacity
      reads frameIds, metas
    {
      Ring.View(frameIds[k], metas[k])
    }

    method Latest() returns (result: Fetched)
      requires Valid()
      modifies refCounts
      ensures (View(), result) == LatestAlone(old(View()))
    {
      hide SlotAt, View;
      SlotsAre();
      if writeSeq == 0 {
        return Empty;
      }
      var acquired := TryAcquire(writeSeq % config.capacity, None);
      if acquired.Held? {
        return Got(acquired.guard);
      }
      return Empty;
    }

    /** Up to 256 tries, each from a fresh look at the newest id. */
    method NextAfter(last: nat) returns (result: Fetched)
      requires Valid()
      modifies refCounts
      ensures (View(), result) == NextAfterAlone(old(View()), last)
    {
      hide SlotAt, View;
      SlotsAre();
      ghost var g := View();
      var tries := 0;
      while tries < NEXT_TRIES
        invariant View() == g
        invariant tries > 0 ==> NextAfterAlone(g, last) == (g, NoNews)
      {
        tries := tries + 1;
        var newest, want := writeSeq, Want(last);
        if newest == 0 || want > newest {
          return NoNews;
        }
        if newest - want >= config.capacity {
          return Behind(last, newest);
        }
        var acquired := TryAcquire(want % config.capacity, Some(want));
        if acquired.Held? {
          return Got(acquired.guard);
        }
      }
      return NoNews;
    }

    /** Dropping a guard takes one from its slot's counter. */
    method DropGuard(guard: Guard)
      requires Valid() && guard.slot < config.capacity
      modifies refCounts
      ensures View() == DropAlone(old(View()), guard)
    {
      hide View;
      SlotsAre();
      SetCount(guard.slot, Decrement(refCounts[guard.slot]));
    }
  }
}
