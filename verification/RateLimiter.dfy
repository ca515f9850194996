/** The limiter for flight-controller commands. Times are nanoseconds. */
module RateLimiter {
  import opened Arithmetic
  import opened Common

  datatype Limiter = Limiter(lastSent: Option<int>, sent: nat, dropped: nat)

  /** The clock's saturating difference. */
  function Since(now: int, then': int): int {
    if now < then' then 0 else now - then'
  }

  predicate Ready(interval: int, l: Limiter, now: int) {
    l.lastSent.None? || Since(now, l.lastSent.value) >= interval
  }

  function Try(interval: int, l: Limiter, now: int): (Limiter, bool) {
    if Ready(interval, l, now) then (Limiter(Some(now), l.sent + 1, l.dropped), true)
    else (l.(dropped := l.dropped + 1), false)
  }

  function Force(l: Limiter, now: int): Limiter {
    Limiter(Some(now), l.sent + 1, l.dropped)
  }

  class CommandRateLimiter {
    const interval: int
    var lastSent: Option<int>
    var sentCount: nat
    var droppedCount: nat

    constructor (interval: int)
      requires interval > 0
      ensures this.interval == interval && At() == Limiter(None, 0, 0)
    {
      this.interval := interval;
      lastSent, sentCount, droppedCount := None, 0, 0;
    }

    function At(): Limiter
      reads this
    {
      Limiter(lastSent, sentCount, droppedCount)
    }

    method TrySend(now: int) returns (ok: bool)
      modifies this
      ensures (At(), ok) == Try(interval, old(At()), now)
    {
      match lastSent {
        case None =>
          lastSent := Some(now);
          sentCount := sentCount + 1;
          return true;
        case Some(last) =>
          if Since(now, last) >= interval {
            lastSent := Some(now);
            sentCount := sentCount + 1;
            return true;
          }
          droppedCount := droppedCount + 1;
          return false;
      }
    }

    method ForceSend(now: int)
      modifies this
      ensures At() == Force(old(At()), now)
    {
      lastSent := Some(now);
      sentCount := sentCount + 1;
    }
  }

  lemma SpacedPush(interval: int, t: seq<int>, now: int)
    requires Spaced(interval, t) && (t != [] ==> now - t[|t| - 1] >= interval)
    ensures Spaced(interval, t + [now])
  {
  }

  function CountIn(t: seq<int>, from: int, to: int): nat {
    if t == [] then 0
    else CountIn(t[..|t| - 1], from, to) + if from <= t[|t| - 1] <= to then 1 else 0
  }

  lemma {:induction false} NoneAfterEnd(interval: int, t: seq<int>, from: int, to: int)
    requires interval > 0 && Spaced(interval, t)
    requires t != [] && t[|t| - 1] < from
    ensures CountIn(t, from, to) == 0
  {
    var front := t[..|t| - 1];
    if front != [] {
      assert t[|t| - 1] - t[|t| - 2] >= interval;
      NoneAfterEnd(interval, front, from, to);
    }
  }

  lemma {:induction false} CutOff(interval: int, t: seq<int>, from: int, to: int, end: int)
    requires interval > 0 && Spaced(interval, t) && end <= to
    requires t != [] ==> t[|t| - 1] <= end
    ensures CountIn(t, from, to) == CountIn(t, from, end)
  {
    if t != [] {
      var front := t[..|t| - 1];
      assert front != [] ==> t[|t| - 1] - t[|t| - 2] >= interval;
      CutOff(interval, front, from, to, end);
    }
  }

  /** Of times one interval apart, a window of length to - from holds no more than
      (to - from) / interval + 1. */
  lemma {:induction false} WindowSpan(interval: int, t: seq<int>, from: int, to: int)
    requires interval > 0 && Spaced(interval, t) && from <= to
    ensures (CountIn(t, from, to) - 1) * interval <= to - from
    decreases |t|
  {
    if t == [] {
      assert (0 - 1) * interval <= 0;
    } else {
      var front, last := t[..|t| - 1], t[|t| - 1];
      if last < from {
        NoneAfterEnd(interval, t, from, to);
        assert (0 - 1) * interval <= 0;
      } else if last > to {
        WindowSpan(interval, front, from, to);
      } else {
        assert front != [] ==> last - t[|t| - 2] >= interval;
        var end, n := last - interval, CountIn(front, from, to);
        CutOff(interval, front, from, to, end);
        if end < from {
          if front != [] {
            NoneAfterEnd(interval, front, from, end);
          }
          assert n == 0;
        } else {
          WindowSpan(interval, front, from, end);
          Distribute(n, 1, interval);
        }
      }
    }
  }

  lemma AtMostRate(interval: int, t: seq<int>, from: int, to: int)
    requires interval > 0 && Spaced(interval, t) && from <= to
    ensures CountIn(t, from, to) <= (to - from) / interval + 1
  {
    WindowSpan(interval, t, from, to);
    var n, q := CountIn(t, from, to), (to - from) / interval;
    if n > q + 1 {
      DivMod(to - from, interval);
      AtLeast(n - 1 - q, interval);
      Distribute(n - 1, q, interval);
    }
  }

  // ---- Whole runs ----

  datatype Call = TryCall(now: int) | ForceCall(now: int)

  function Called(interval: int, l: Limiter, call: Call): (Limiter, bool) {
    match call
    case TryCall(now) => Try(interval, l, now)
    case ForceCall(now) => (Force(l, now), true)
  }

  function After(interval: int, calls: seq<Call>): Limiter {
    if calls == [] then Limiter(None, 0, 0)
    else Called(interval, After(interval, calls[..|calls| - 1]), calls[|calls| - 1]).0
  }

  /** Whether the last call of the run was let through. */
  function Sent(interval: int, calls: seq<Call>): bool
    requires calls != []
  {
    Called(interval, After(interval, calls[..|calls| - 1]), calls[|calls| - 1]).1
  }

  /** When the calls that were let through came. */
  function SentTimes(interval: int, calls: seq<Call>): seq<int> {
    if calls == [] then []
    else
      var before := SentTimes(interval, calls[..|calls| - 1]);
      if Sent(interval, calls) then before + [calls[|calls| - 1].now] else before
  }

  /** The limiter remembers the last send of the run, and counts every call once. */
  lemma {:induction false} LimiterRemembers(interval: int, calls: seq<Call>)
    ensures var (l, t) := (After(interval, calls), SentTimes(interval, calls));
            && l.lastSent == (if t == [] then None else Some(t[|t| - 1]))
            && l.sent == |t| && l.sent + l.dropped == |calls|
  {
    if calls != [] {
      LimiterRemembers(interval, calls[..|calls| - 1]);
    }
  }

  /** Over every run, forced sends included: a call is let through if and only if it is forced,
      or nothing was sent before, or the run's last send is at least one interval ago. */
  lemma SentExactly(interval: int, calls: seq<Call>, next: Call)
    requires interval > 0
    ensures var t := SentTimes(interval, calls);
            Sent(interval, calls + [next]) <==>
            next.ForceCall? || t == [] || next.now - t[|t| - 1] >= interval
  {
    assert (calls + [next])[..|calls|] == calls;
    LimiterRemembers(interval, calls);
  }
}
