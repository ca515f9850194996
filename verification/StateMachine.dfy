/** The commander's state machine and its table of allowed transitions. */
module StateMachine {

  datatype SystemState =
    | Idle
    | Armed
    | Scanning
    | TargetSelected
    | Tracking
    | TrackingDegraded
    | Lost
    | Rth
    | Abort

  predicate IsAllowed(from: SystemState, to: SystemState) {
    match (from, to)
    case (Idle, Armed) => true
    case (Armed, Scanning) => true
    case (Scanning, TargetSelected) => true
    case (TargetSelected, Tracking) => true
    case (TargetSelected, TrackingDegraded) => true
    case (Tracking, TrackingDegraded) => true
    case (TrackingDegraded, Tracking) => true
    case (Tracking, Lost) => true
    case (TrackingDegraded, Lost) => true
    case (Lost, Tracking) => true
    case (Lost, Rth) => true
    case (Rth, Idle) => true
    case (Scanning, Idle) => true
    case (Tracking, Scanning) => true
    case (TrackingDegraded, Scanning) => true
    case (Lost, Scanning) => true
    case (TargetSelected, Scanning) => true
    case (_, Abort) => true
    case (Abort, Idle) => true
    case _ => false
  }

  /** The state, the number of transitions, and every state visited so far. */
  datatype Machine = Machine(state: SystemState, count: nat, trace: seq<SystemState>)

  function Enter(m: Machine, to: SystemState): Machine {
    Machine(to, m.count + 1, m.trace + [to])
  }

  function Try(m: Machine, to: SystemState): (Machine, bool) {
    if m.state == to then (m, true)
    else if IsAllowed(m.state, to) then (Enter(m, to), true)
    else (m, false)
  }

  function Force(m: Machine, to: SystemState): Machine {
    if m.state == to then m else Enter(m, to)
  }

  /** The edges of the documented diagram: the way to tracking, loss and recovery, return to
      home, degradation and back, and the operator's ways back. */
  lemma DiagramHolds()
    ensures IsAllowed(Idle, Armed) && IsAllowed(Armed, Scanning) && IsAllowed(Scanning, TargetSelected)
    ensures IsAllowed(TargetSelected, Tracking) && IsAllowed(Tracking, Lost) && IsAllowed(Lost, Tracking)
    ensures IsAllowed(Lost, Rth) && IsAllowed(Rth, Idle)
    ensures IsAllowed(Tracking, TrackingDegraded) && IsAllowed(TrackingDegraded, Tracking)
    ensures IsAllowed(TargetSelected, TrackingDegraded) && IsAllowed(TrackingDegraded, Lost)
    ensures forall s :: IsAllowed(s, Scanning) <==>
              s == Armed || s == TargetSelected || s == Tracking || s == TrackingDegraded || s == Lost
  {
  }

  /** Abort is open to every state, and leads to Idle and, by itself, nowhere else; Idle is
      entered from Scanning, Rth and Abort only, and each state before tracking from one. */
  lemma WaysInAndOut(s: SystemState)
    ensures IsAllowed(s, Abort)
    ensures IsAllowed(Abort, s) <==> s == Idle || s == Abort
    ensures IsAllowed(s, Idle) <==> s == Scanning || s == Rth || s == Abort
    ensures IsAllowed(s, Armed) <==> s == Idle
    ensures IsAllowed(s, TargetSelected) <==> s == Scanning
    ensures IsAllowed(s, Tracking) <==> s == TargetSelected || s == TrackingDegraded || s == Lost
    ensures IsAllowed(s, TrackingDegraded) <==> s == TargetSelected || s == Tracking
    ensures IsAllowed(s, Lost) <==> s == Tracking || s == TrackingDegraded
    ensures IsAllowed(s, Rth) <==> s == Lost
  {
  }

  /** A transition succeeds exactly along an edge or when there is nothing to do, and then the
      machine is in the state asked for, one transition later if it has moved. */
  lemma TryExactly(m: Machine, to: SystemState)
    ensures Try(m, to).1 <==> m.state == to || IsAllowed(m.state, to)
    ensures Try(m, to).1 ==> Try(m, to).0.state == to
    ensures !Try(m, to).1 ==> Try(m, to).0 == m
    ensures Try(m, to).0.count == m.count + if Try(m, to).0.state != m.state then 1 else 0
    ensures Force(m, to).state == to && Force(m, to).count == m.count + if m.state != to then 1 else 0
  {
  }

  class StateMachine {
    var state: SystemState
    var transitionCount: nat
    var trace: seq<SystemState>

    constructor (initial: SystemState)
      ensures At() == Machine(initial, 0, [initial])
    {
      state, transitionCount, trace := initial, 0, [initial];
    }

    function At(): Machine
      reads this
    {
      Machine(state, transitionCount, trace)
    }

    method TryTransition(to: SystemState) returns (ok: bool)
      modifies this
      ensures (At(), ok) == Try(old(At()), to)
    {
      if state == to {
        return true;
      }
      if !IsAllowed(state, to) {
        return false;
      }
      state := to;
      transitionCount := transitionCount + 1;
      trace := trace + [to];
      return true;
    }

    method ForceTransition(to: SystemState)
      modifies this
      ensures At() == Force(old(At()), to)
    {
      if state == to {
        return;
      }
      state := to;
      transitionCount := transitionCount + 1;
      trace := trace + [to];
    }
  }

  /** Every step of the trace is in the table: forcing is only ever used for Abort,
      which the table allows from anywhere. */
  ghost predicate Lawful(m: Machine) {
    && m.trace != [] && m.trace[|m.trace| - 1] == m.state
    && |m.trace| == m.count + 1
    && forall i | 1 <= i < |m.trace| :: IsAllowed(m.trace[i - 1], m.trace[i])
  }

  lemma StepsAreLawful(m: Machine, to: SystemState)
    requires Lawful(m)
    ensures Lawful(Try(m, to).0)
    ensures to == Abort ==> Lawful(Force(m, to))
  {
  }

  /** Idle, Armed, Scanning and TargetSelected occur in this order strictly between i and j. */
  ghost predicate WholeWay(trace: seq<SystemState>, i: nat, j: nat) {
    exists a, b, c, d ::
      && i < a < b < c < d < j < |trace|
      && trace[a] == Idle && trace[b] == Armed && trace[c] == Scanning && trace[d] == TargetSelected
  }

  /** How far the way back has come at position j, with the places passed. */
  ghost predicate WayTo(trace: seq<SystemState>, i: nat, j: nat, a: int, b: int, c: int, d: int)
    requires i <= j < |trace|
  {
    match trace[j]
    case Abort => true
    case Idle => i < a <= j && trace[a] == Idle
    case Armed => i < a < b <= j && trace[a] == Idle && trace[b] == Armed
    case Scanning => i < a < b < c <= j && trace[a] == Idle && trace[b] == Armed && trace[c] == Scanning
    case TargetSelected =>
      && i < a < b < c < d <= j
      && trace[a] == Idle && trace[b] == Armed && trace[c] == Scanning && trace[d] == TargetSelected
    case _ =>
      && i < a < b < c < d < j
      && trace[a] == Idle && trace[b] == Armed && trace[c] == Scanning && trace[d] == TargetSelected
  }

  lemma {:induction false} WayBack(m: Machine, i: nat, j: nat) returns (a: int, b: int, c: int, d: int)
    requires Lawful(m) && i <= j < |m.trace| && m.trace[i] == Abort
    ensures WayTo(m.trace, i, j, a, b, c, d)
  {
    a, b, c, d := 0, 0, 0, 0;
    if i < j {
      a, b, c, d := WayBack(m, i, j - 1);
      assert IsAllowed(m.trace[j - 1], m.trace[j]);
      match m.trace[j] {
        case Idle => a := j;
        case Armed => b := j;
        case Scanning => if m.trace[j - 1] == Armed { c := j; }
        case TargetSelected => d := j;
        case _ =>
      }
    }
  }

  /** After an entry to Abort, tracking of any kind needs the whole way through Idle,
      Armed, Scanning and TargetSelected. */
  lemma TrackingAfterAbort(m: Machine, i: nat, j: nat)
    requires Lawful(m) && i < j < |m.trace| && m.trace[i] == Abort
    requires m.trace[j] == Tracking || m.trace[j] == TrackingDegraded || m.trace[j] == Lost
    ensures WholeWay(m.trace, i, j)
  {
    var a, b, c, d := WayBack(m, i, j);
  }
}
