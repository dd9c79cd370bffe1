/** The reservation code is a process of Protocol: each transaction it runs is one step of the
    protocol from whatever state the others have left, and an uninterrupted call is a run. */
module Refinement {
  import opened Wrappers
  import opened Windows
  import opened Lifecycle
  import opened Bookings
  import Scheduler
  import opened Reservations
  import opened Protocol

  /** A run in which only process p moves. */
  ghost predicate Solo(run: seq<State>, p: nat) {
    run != [] && forall i | 0 <= i < |run| - 1 :: StepOf(run[i], run[i + 1], p)
  }

  ghost predicate StepOf(s: State, s': State, p: nat) {
    exists kind :: Step(s, s', p, kind)
  }

  ghost predicate SoloTo(run: seq<State>, p: nat, from: State, to: State) {
    Solo(run, p) && run[0] == from && run[|run| - 1] == to
  }

  lemma OneStep(s: State, s': State, p: nat) returns (run: seq<State>)
    requires StepOf(s, s', p)
    ensures SoloTo(run, p, s, s')
  {
    run := [s, s'];
  }

  lemma ThenRun(first: seq<State>, second: seq<State>, p: nat, a: State, b: State, c: State) returns (run: seq<State>)
    requires SoloTo(first, p, a, b) && SoloTo(second, p, b, c)
    ensures SoloTo(run, p, a, c)
  {
    run := first + second[1..];
    forall i | 0 <= i < |run| - 1 ensures StepOf(run[i], run[i + 1], p) {
      if i < |first| - 1 {
        assert StepOf(first[i], first[i + 1], p);
      } else {
        var j := i - (|first| - 1);
        assert run[i] == second[j] && run[i + 1] == second[j + 1];
        assert StepOf(second[j], second[j + 1], p);
      }
    }
  }

  predicate Wanting(s: State, p: nat, d: Demand, index: nat, attempt: nat, spent: nat) {
    && p in s.procs && s.procs[p] == Trying(d, index, attempt, spent)
    && index < |d.candidates| && attempt < MAX_ATTEMPTS && (d.status == Pending || d.status == Confirmed)
  }

  /** Where the outcome of one candidate leaves the protocol. */
  function After(s: State, p: nat, d: Demand, index: nat, r: Attempt, spent: nat): State
    requires index < |d.candidates|
  {
    match r
    case Booked(id) => State(s.rows + [d.RowOn(index)], s.history + [[d.status]],
                             s.procs[p := Protocol.Reserved(d, id, spent)])
    case Gone => s.(procs := s.procs[p := Enter(d, index + 1, spent)])
    case Failed => s.(procs := s.procs[p := Crashed(d, spent)])
  }

  /** One turn of the loop in tryResource: it goes round again, or it is done with the candidate. */
  datatype Turn = Again | Done(outcome: Attempt)

  ghost function TurnOf(rows: seq<Row>, row: Row, fault: Fault, attempt: nat): Turn {
    match fault
    case Quiet =>
      if row.start >= row.end then Done(Failed)
      else if MayInsert(rows, row) then Done(Booked(|rows|))
      else Done(Gone)
    case Deadlock => if attempt == MAX_ATTEMPTS - 1 then Done(Gone) else Again
    case DeadlockThenCancelled => if attempt == MAX_ATTEMPTS - 1 then Done(Gone) else Done(Failed)
    case Broken => Done(Failed)
  }

  function AfterTurn(s: State, p: nat, d: Demand, index: nat, attempt: nat, turn: Turn, spent: nat): State
    requires index < |d.candidates|
  {
    match turn
    case Again => s.(procs := s.procs[p := Trying(d, index, attempt + 1, spent)])
    case Done(r) => After(s, p, d, index, r, spent)
  }

  /** One turn of the code's loop is one step of the protocol, from any state: whatever other
      processes did to the table since the turn before. */
  lemma TurnIsAStep(s: State, p: nat, d: Demand, index: nat, attempt: nat, spent: nat, fault: Fault)
    requires Wanting(s, p, d, index, attempt, spent)
    ensures StepOf(s, AfterTurn(s, p, d, index, attempt, TurnOf(s.rows, d.RowOn(index), fault, attempt), spent + 1), p)
  {
    var row := d.RowOn(index);
    var s' := AfterTurn(s, p, d, index, attempt, TurnOf(s.rows, row, fault, attempt), spent + 1);
    match fault
    case Quiet =>
      if row.start >= row.end {
        assert Step(s, s', p, Crash);
      } else if MayInsert(s.rows, row) {
        assert Step(s, s', p, Insert);
      } else {
        ConflictOccupies(s.rows, row);
        assert Step(s, s', p, Exclude);
      }
    case Broken => assert Step(s, s', p, Crash);
    case _ => assert Step(s, s', p, Retry) || Step(s, s', p, Crash);
  }

  lemma ConflictOccupies(rows: seq<Row>, row: Row)
    requires row.start < row.end && !MayInsert(rows, row)
    ensures Occupied(rows, row.resource, row.start, row.end)
  {
    var i :| 0 <= i < |rows| && Conflict(rows[i], row);
  }

  /** The outcome TryResource promises is what its turns come to. */
  lemma TurnsMakeOutcome(rows: seq<Row>, row: Row, faults: nat -> Fault, attempt: nat, r: Attempt)
    requires attempt < MAX_ATTEMPTS && TryOutcome(rows, row, faults, r)
    requires forall a: nat | a < attempt :: faults(a) == Deadlock
    ensures var turn := TurnOf(rows, row, faults(attempt), attempt);
            if turn == Again then faults(attempt) == Deadlock && attempt < MAX_ATTEMPTS - 1 else turn == Done(r)
  {
    if faults(attempt) != Deadlock {
      assert Decides(faults, attempt);
    } else if attempt == MAX_ATTEMPTS - 1 {
      assert forall a: nat | a < MAX_ATTEMPTS :: faults(a) == Deadlock;
    }
  }

  /** The retry loop of one candidate. */
  lemma {:induction false} Attempts(s: State, p: nat, d: Demand, index: nat, attempt: nat, spent: nat,
                                    faults: nat -> Fault, r: Attempt)
    returns (run: seq<State>, spent': nat)
    requires Wanting(s, p, d, index, attempt, spent) && forall a: nat | a < attempt :: faults(a) == Deadlock
    requires TryOutcome(s.rows, d.RowOn(index), faults, r)
    ensures SoloTo(run, p, s, After(s, p, d, index, r, spent'))
    decreases MAX_ATTEMPTS - attempt
  {
    var turn := TurnOf(s.rows, d.RowOn(index), faults(attempt), attempt);
    var s1 := AfterTurn(s, p, d, index, attempt, turn, spent + 1);
    TurnIsAStep(s, p, d, index, attempt, spent, faults(attempt));
    TurnsMakeOutcome(s.rows, d.RowOn(index), faults, attempt, r);
    var first := OneStep(s, s1, p);
    if turn == Again {
      var rest;
      rest, spent' := Attempts(s1, p, d, index, attempt + 1, spent + 1, faults, r);
      assert After(s1, p, d, index, r, spent') == After(s, p, d, index, r, spent');
      run := ThenRun(first, rest, p, s, s1, After(s, p, d, index, r, spent'));
    } else {
      run, spent' := first, spent + 1;
    }
  }

  /** The answer a process ends with. */
  ghost predicate EndsWith(q: Process, d: Demand, r: Result<nat, Scheduler.Error>) {
    match r
    case Success(id) => q.Reserved? && q.demand == d && q.booking == id
    case Failure(e) => (if e == Scheduler.SlotTaken then q.Refused? else q.Crashed?) && q.demand == d
  }

  ghost predicate Matches(p: Reservations.Request, candidates: seq<Id>, d: Demand) {
    d == Demand(candidates, p.start, p.end, p.status) && (p.status == Pending || p.status == Confirmed)
  }

  lemma {:induction false} Walk(s: State, pid: nat, d: Demand, index: nat, spent: nat, p: Reservations.Request,
                               faults: nat -> nat -> Fault, tried: nat, r: Result<nat, Scheduler.Error>,
                               after: seq<Row>)
    returns (run: seq<State>, s': State)
    requires Matches(p, d.candidates, d) && index <= tried && index <= |d.candidates|
    requires Inserted(s.rows, p, d.candidates, faults, tried, r, after)
    requires pid in s.procs && s.procs[pid] == Enter(d, index, spent)
    ensures SoloTo(run, pid, s, s') && s'.rows == after && pid in s'.procs && EndsWith(s'.procs[pid], d, r)
    ensures forall q | q in s.procs && q != pid :: q in s'.procs && s'.procs[q] == s.procs[q]
    decreases |d.candidates| - index
  {
    if index == |d.candidates| {
      run, s' := [s], s;
    } else if index < tried {
      assert GivesUp(s.rows, p, d.candidates, faults, index);
      assert p.RowOn(d.candidates[index]) == d.RowOn(index);
      var first, n := Attempts(s, pid, d, index, 0, spent, faults(index), Gone);
      var s1 := After(s, pid, d, index, Gone, n);
      var rest;
      rest, s' := Walk(s1, pid, d, index + 1, n, p, faults, tried, r, after);
      run := ThenRun(first, rest, pid, s, s1, s');
    } else {
      assert p.RowOn(d.candidates[index]) == d.RowOn(index);
      var outcome := if r.Success? then Booked(r.value) else Failed;
      var n;
      run, n := Attempts(s, pid, d, index, 0, spent, faults(index), outcome);
      s' := After(s, pid, d, index, outcome, n);
    }
  }

  /** Whatever InsertBooking does to the table in one uninterrupted call, whatever faults it meets,
      steps of the protocol do from the same state: the process arrives, moves alone, and ends
      with the same rows and the same answer. */
  lemma InsertBookingIsARun(s: State, pid: nat, p: Reservations.Request, candidates: seq<Id>,
                            faults: nat -> nat -> Fault,
                            tried: nat, r: Result<nat, Scheduler.Error>, after: seq<Row>)
    returns (run: seq<State>, s': State)
    requires pid !in s.procs && (p.status == Pending || p.status == Confirmed)
    requires Inserted(s.rows, p, candidates, faults, tried, r, after)
    ensures SoloTo(run, pid, s, s') && s'.rows == after
    ensures pid in s'.procs && EndsWith(s'.procs[pid], Demand(candidates, p.start, p.end, p.status), r)
  {
    var d := Demand(candidates, p.start, p.end, p.status);
    var s0 := s.(procs := s.procs[pid := Enter(d, 0, 0)]);
    assert Step(s, s0, pid, Arrive);
    var first := OneStep(s, s0, pid);
    var rest;
    rest, s' := Walk(s0, pid, d, 0, 0, p, faults, tried, r, after);
    run := ThenRun(first, rest, pid, s, s0, s');
  }

  /** Likewise Transition: a read and a guarded write. */
  lemma TransitionIsARun(s: State, pid: nat, id: nat, event: Event)
    returns (run: seq<State>, s': State)
    requires Inv(s) && pid !in s.procs
    ensures SoloTo(run, pid, s, s')
    ensures var moved := if id < |s.rows| then Next(s.rows[id].status, event) else None;
            s'.rows == if moved.Some? then s.rows[id := Bookings.Moved(s.rows[id], moved.value)] else s.rows
  {
    var s0 := s.(procs := s.procs[pid := Reading(id, event)]);
    assert Step(s, s0, pid, Arrive);
    var first := OneStep(s, s0, pid);
    var can := id < |s.rows| && Next(s.rows[id].status, event).Some?;
    var s1 := s.(procs := s.procs[pid := if can then Writing(id, event, s.rows[id].status) else Rejected(id)]);
    assert s0.procs[pid := s1.procs[pid]] == s1.procs;
    assert Step(s0, s1, pid, Read);
    var second := OneStep(s0, s1, pid);
    run := ThenRun(first, second, pid, s, s0, s1);
    s' := s1;
    if can {
      var to := Next(s.rows[id].status, event).value;
      s' := State(s.rows[id := Bookings.Moved(s.rows[id], to)], s.history[id := s.history[id] + [to]],
                  s1.procs[pid := Protocol.Moved(id, s.rows[id].status, to)]);
      assert Step(s1, s', pid, Write);
      var third := OneStep(s1, s', pid);
      run := ThenRun(run, third, pid, s, s1, s');
    }
  }
}
