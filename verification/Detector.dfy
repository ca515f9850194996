/** The detector's cursor over the ring: `acquire` asks for the successor of the last
    frame seen and jumps ahead when it has fallen too far behind. */
module Detector {
  import opened Common
  import opened Ring
  import opened RingInvariant

  /** The answer of a finished `next_after` call. */
  datatype NextStep = GotFrame(id: nat) | NoNews | Behind(latest: nat)

  /** What any answer to next_after(last) is bound to, on a ring of this capacity. */
  predicate Honest(capacity: nat, last: nat, answer: NextStep) {
    && (answer.GotFrame? ==> answer.id == Want(last))
    && (answer.Behind? ==> Want(last) + capacity <= answer.latest <= MAX_ID)
  }

  /** The answer that a reader of the ring has got, if its call is over. */
  function AnswerOf(r: Reader): Option<NextStep> {
    match r
    case Holding(_, _, view) => Some(GotFrame(view.id))
    case Done(_, UpToDate) => Some(NoNews)
    case Done(_, TooFarBehind(_, latest)) => Some(Behind(latest))
    case _ => None
  }

  /** In every run of the ring every answer to next_after is honest. */
  lemma AnswersAreHonest(states: seq<State>, events: seq<Event>, i: nat, r: nat)
    requires IsRun(states, events) && i < |states|
    requires r in states[i].readers && states[i].readers[r].call.NextAfter?
    requires AnswerOf(states[i].readers[r]).Some?
    ensures var reader := states[i].readers[r];
            Honest(states[i].config.capacity, reader.call.last, AnswerOf(reader).value)
  {
    RunKeepsInv(states, events, i);
    assert ReaderOk(states[i], states[i].readers[r]);
  }

  datatype Position = Position(last: nat, jumps: nat)

  datatype Answers = Answers(first: NextStep, second: NextStep)

  /** The second question is put only after a jump, from the jump's target. */
  predicate HonestAnswers(capacity: nat, at: Position, a: Answers) {
    && Honest(capacity, at.last, a.first)
    && (a.first.Behind? ==> Honest(capacity, a.first.latest, a.second))
  }

  function Acquired(a: Answers): Option<nat> {
    match a.first
    case GotFrame(id) => Some(id)
    case NoNews => None
    case Behind(_) => if a.second.GotFrame? then Some(a.second.id) else None
  }

  function Moved(at: Position, a: Answers): Position {
    match a.first
    case GotFrame(id) => at.(last := id)
    case NoNews => at
    case Behind(latest) =>
      Position(if a.second.GotFrame? then a.second.id else latest, at.jumps + 1)
  }

  class Cursor {
    var last: nat
    var jumps: nat

    constructor ()
      ensures last == 0 && jumps == 0
    {
      last, jumps := 0, 0;
    }

    function At(): Position
      reads this
    {
      Position(last, jumps)
    }

    /** One call of `acquire`, with the answers that the ring gives it. */
    method Acquire(first: NextStep, second: NextStep) returns (frame: Option<nat>)
      modifies this
      ensures frame == Acquired(Answers(first, second))
      ensures At() == Moved(old(At()), Answers(first, second))
    {
      match first {
        case GotFrame(id) =>
          last := id;
          return Some(id);
        case NoNews =>
          return None;
        case Behind(latest) =>
          jumps := jumps + 1;
          last := latest;
          if second.GotFrame? {
            last := second.id;
            return Some(second.id);
          }
          return None;
      }
    }
  }

  /** The ids of the frames among a call's answers, in order. */
  function FramesIn(a: Answers): seq<nat> {
    (if a.first.GotFrame? then [a.first.id] else [])
    + (if a.first.Behind? && a.second.GotFrame? then [a.second.id] else [])
  }

  /** No frame that the ring gives is withheld, before a jump or after one: a call returns a
      frame exactly when an answer held one, that frame, and the cursor then stands on it.
      Without a frame the cursor stays, or stands where the jump took it. */
  lemma FoundIsReturned(at: Position, a: Answers)
    ensures Acquired(a).Some? <==> FramesIn(a) != []
    ensures Acquired(a).Some? ==> FramesIn(a) == [Acquired(a).value] && Moved(at, a).last == Acquired(a).value
    ensures Acquired(a).None? ==> Moved(at, a).last == if a.first.Behind? then a.first.latest else at.last
    ensures Moved(at, a).jumps == at.jumps + One(a.first.Behind?)
  {
  }

  /** Where the cursor is after answering the calls in order. */
  function After(at: Position, calls: seq<Answers>): Position
    decreases |calls|
  {
    if calls == [] then at
    else Moved(After(at, calls[..|calls| - 1]), calls[|calls| - 1])
  }

  ghost predicate HonestRun(capacity: nat, at: Position, calls: seq<Answers>) {
    forall i | 0 <= i < |calls| :: HonestAnswers(capacity, After(at, calls[..i]), calls[i])
  }

  /** One call: the cursor never goes back, and a frame it returns is the successor of the
      last one if no jump was counted, and lies past a full ring's worth of ids if one was. */
  lemma AcquireAdvances(capacity: nat, at: Position, a: Answers)
    requires capacity >= 1 && at.last < MAX_ID && HonestAnswers(capacity, at, a)
    ensures var then' := Moved(at, a);
            && at.last <= then'.last && at.jumps <= then'.jumps
            && (then'.jumps == at.jumps ==> then'.last == at.last + One(Acquired(a).Some?))
            && (then'.jumps > at.jumps ==> then'.last > at.last + capacity)
            && (Acquired(a).Some? ==> Acquired(a).value == then'.last)
  {
  }

  /** From frame to frame over any run of calls: ids strictly increase, and two frames
      returned one after the other are neighbours exactly when no jump lies between. */
  lemma {:induction false} IdsIncrease(capacity: nat, at: Position, calls: seq<Answers>, i: nat, j: nat)
    requires capacity >= 1 && HonestRun(capacity, at, calls)
    requires i < j < |calls| && Acquired(calls[i]).Some? && Acquired(calls[j]).Some?
    requires After(at, calls[..j]).last < MAX_ID
    requires forall k | i < k < j :: Acquired(calls[k]).None?
    ensures var a, b := Acquired(calls[i]).value, Acquired(calls[j]).value;
            var before, now := After(at, calls[..i + 1]).jumps, After(at, calls[..j + 1]).jumps;
            && a < b
            && (b == a + 1 <==> before == now)
            && (now > before ==> b > a + capacity)
  {
    QuietCalls(capacity, at, calls, i + 1, j);
    assert calls[..i + 1][..i] == calls[..i] && calls[..j + 1][..j] == calls[..j];
    AcquireAdvances(capacity, After(at, calls[..j]), calls[j]);
  }

  /** Some reader of the run asked next_after(last) and got this answer. */
  ghost predicate Answered(states: seq<State>, last: nat, answer: NextStep) {
    exists i, r :: 0 <= i < |states| && r in states[i].readers
                   && states[i].readers[r].call == NextAfter(last) && AnswerOf(states[i].readers[r]) == Some(answer)
  }

  /** The cursor's questions, one after the other, are answered by the ring: each asks from
      where the answers before it have left the cursor. */
  ghost predicate AnsweredByRing(states: seq<State>, at: Position, calls: seq<Answers>) {
    forall i | 0 <= i < |calls| ::
      && Answered(states, After(at, calls[..i]).last, calls[i].first)
      && (calls[i].first.Behind? ==> Answered(states, calls[i].first.latest, calls[i].second))
  }

  lemma AnsweredIsHonest(states: seq<State>, events: seq<Event>, last: nat, answer: NextStep)
    requires IsRun(states, events) && Answered(states, last, answer)
    ensures Honest(states[0].config.capacity, last, answer)
  {
    hide IsRun, Honest;
    var i, r :| 0 <= i < |states| && r in states[i].readers
                && states[i].readers[r].call == NextAfter(last) && AnswerOf(states[i].readers[r]) == Some(answer);
    AnswersAreHonest(states, events, i, r);
    ConfigStays(states, events, i);
  }

  lemma {:induction false} ConfigStays(states: seq<State>, events: seq<Event>, i: nat)
    requires IsRun(states, events) && i < |states|
    ensures states[i].config == states[0].config
  {
    hide Init, Uncrowded;
    if i > 0 {
      ConfigStays(states, events, i - 1);
      assert Step(states[i - 1], events[i - 1], states[i]);
    }
  }

  /** The detector on the ring: whatever the producer and other readers do, the frames that
      successive calls return have strictly increasing ids, and every gap in the ids is a
      counted jump. */
  lemma DetectorSeesIncreasingIds(states: seq<State>, events: seq<Event>, at: Position, calls: seq<Answers>,
                                  i: nat, j: nat)
    requires IsRun(states, events) && AnsweredByRing(states, at, calls)
    requires i < j < |calls| && Acquired(calls[i]).Some? && Acquired(calls[j]).Some?
    requires After(at, calls[..j]).last < MAX_ID
    requires forall k | i < k < j :: Acquired(calls[k]).None?
    ensures var (a, b) := (Acquired(calls[i]).value, Acquired(calls[j]).value);
            var (before, now) := (After(at, calls[..i + 1]).jumps, After(at, calls[..j + 1]).jumps);
            a < b && (b == a + 1 <==> before == now)
  {
    hide Init, Step, Uncrowded, Honest, After, Answered;
    var capacity := states[0].config.capacity;
    forall k | 0 <= k < |calls| ensures HonestAnswers(capacity, After(at, calls[..k]), calls[k]) {
      AnsweredIsHonest(states, events, After(at, calls[..k]).last, calls[k].first);
      if calls[k].first.Behind? {
        AnsweredIsHonest(states, events, calls[k].first.latest, calls[k].second);
      }
    }
    CapacityIsPositive(states, events);
    IdsIncrease(capacity, at, calls, i, j);
  }

  /** On the ring: when the reader that the cursor sent out holds a guard, the call returns
      the frame behind that guard and no other. */
  lemma GuardIsReturned(states: seq<State>, events: seq<Event>, i: nat, r: nat, at: Position, second: NextStep)
    requires IsRun(states, events) && i < |states|
    requires r in states[i].readers && states[i].readers[r].call == NextAfter(at.last)
    requires states[i].readers[r].Holding? && at.last < MAX_ID
    ensures var a := Answers(AnswerOf(states[i].readers[r]).value, second);
            && Acquired(a) == Some(states[i].readers[r].view.id) == Some(at.last + 1)
            && Moved(at, a) == Position(at.last + 1, at.jumps)
  {
    RunKeepsInv(states, events, i);
    assert ReaderOk(states[i], states[i].readers[r]);
  }

  lemma CapacityIsPositive(states: seq<State>, events: seq<Event>)
    requires IsRun(states, events)
    ensures states[0].config.capacity >= 1
  {
  }

  /** Calls that return nothing move the cursor only by counted jumps. */
  lemma {:induction false} QuietCalls(capacity: nat, at: Position, calls: seq<Answers>, i: nat, j: nat)
    requires capacity >= 1 && HonestRun(capacity, at, calls)
    requires i <= j < |calls| && After(at, calls[..j]).last < MAX_ID
    requires forall k | i <= k < j :: Acquired(calls[k]).None?
    ensures var a, b := After(at, calls[..i]), After(at, calls[..j]);
            && a.last <= b.last && a.jumps <= b.jumps
            && (a.jumps == b.jumps ==> a.last == b.last)
            && (a.jumps < b.jumps ==> b.last > a.last + capacity)
    decreases j - i
  {
    if i < j {
      assert calls[..j][..j - 1] == calls[..j - 1];
      var prev := After(at, calls[..j - 1]);
      assert HonestAnswers(capacity, prev, calls[j - 1]);
      NeverBack(capacity, prev, calls[j - 1]);
      QuietCalls(capacity, at, calls, i, j - 1);
    }
  }

  lemma NeverBack(capacity: nat, at: Position, a: Answers)
    requires capacity >= 1 && HonestAnswers(capacity, at, a)
    ensures Moved(at, a).last < MAX_ID ==> at.last < MAX_ID && at.last <= Moved(at, a).last
    ensures Moved(at, a).last < MAX_ID && Moved(at, a).jumps > at.jumps ==> Moved(at, a).last > at.last + capacity
  {
  }

  /** The one exception: at the last id that u64 has, saturation makes next_after
      ask for the same frame again. */
  lemma LastIdRepeats(capacity: nat, at: Position, a: Answers)
    requires at.last >= MAX_ID && HonestAnswers(capacity, at, a) && a.first.GotFrame?
    ensures Acquired(a) == Some(MAX_ID)
  {
  }
}
