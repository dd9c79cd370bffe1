/** internal/booking/service.go under concurrency: every interleaving of reservation requests
    and lifecycle transitions over one bookings table.

    Each transaction is one atomic step. A reservation holds a candidate list that may be
    stale, walks it with a bounded retry budget, and may see any transaction deadlock; a
    transition reads the status in one step and writes, guarded on it, in another. */
module Protocol {
  import opened Wrappers
  import opened Windows
  import opened Lifecycle
  import opened Bookings

  datatype Demand = Demand(candidates: seq<Id>, start: int, end: int, status: Status)
  {
    function RowOn(i: nat): Row
      requires i < |candidates|
    {
      Row(candidates[i], start, end, status, None)
    }
  }

  datatype Process =
    // a reservation: about to run attempt `attempt` on candidate `index`, after `spent` transactions
    | Trying(demand: Demand, index: nat, attempt: nat, spent: nat)
    | Reserved(demand: Demand, booking: nat, spent: nat)
    | Refused(demand: Demand, spent: nat)
    | Crashed(demand: Demand, spent: nat)
    // a transition
    | Reading(target: nat, event: Event)
    | Writing(target: nat, event: Event, seen: Status)
    | Moved(target: nat, from: Status, to: Status)
    | Rejected(target: nat)

  /** `history[b]` lists the statuses booking b has had. */
  datatype State = State(rows: seq<Row>, history: seq<seq<Status>>, procs: map<nat, Process>)

  datatype Kind = Arrive | Insert | Exclude | Retry | Crash | Read | Write

  function Enter(d: Demand, index: nat, spent: nat): Process {
    if index < |d.candidates| then Trying(d, index, 0, spent) else Refused(d, spent)
  }

  function Retried(q: Process): Process
    requires q.Trying?
  {
    if q.attempt == MAX_ATTEMPTS - 1 then Enter(q.demand, q.index + 1, q.spent + 1)
    else Trying(q.demand, q.index, q.attempt + 1, q.spent + 1)
  }

  ghost predicate Fresh(q: Process) {
    || q.Reading?
    || ((q.Trying? || q.Refused?) && q == Enter(q.demand, 0, 0)
        && (q.demand.status == Pending || q.demand.status == Confirmed))
  }

  /** One atomic step of process p. */
  ghost predicate Step(s: State, s': State, p: nat, kind: Kind) {
    if kind == Arrive then
      p !in s.procs && p in s'.procs && Fresh(s'.procs[p]) && s' == s.(procs := s.procs[p := s'.procs[p]])
    else
      p in s.procs &&
      var q := s.procs[p];
      match kind
      case Insert =>
        && q.Trying? && q.index < |q.demand.candidates|
        && var row := q.demand.RowOn(q.index);
        && MayInsert(s.rows, row)
        && s' == State(s.rows + [row], s.history + [[row.status]],
                       s.procs[p := Reserved(q.demand, |s.rows|, q.spent + 1)])
      case Exclude =>
        && q.Trying? && q.index < |q.demand.candidates|
        && Occupied(s.rows, q.demand.candidates[q.index], q.demand.start, q.demand.end)
        && s' == s.(procs := s.procs[p := Enter(q.demand, q.index + 1, q.spent + 1)])
      case Retry =>
        && q.Trying?
        && s' == s.(procs := s.procs[p := Retried(q)])
      case Crash =>
        && q.Trying?
        && s' == s.(procs := s.procs[p := Crashed(q.demand, q.spent + 1)])
      case Read =>
        && q.Reading?
        && s' == s.(procs := s.procs[p := if q.target < |s.rows| && Next(s.rows[q.target].status, q.event).Some?
                                          then Writing(q.target, q.event, s.rows[q.target].status)
                                          else Rejected(q.target)])
      case Write =>
        && q.Writing? && q.target < |s.rows| && q.target < |s.history|
        && (if s.rows[q.target].status == q.seen && Next(q.seen, q.event).Some? then
              var to := Next(q.seen, q.event).value;
              s' == State(s.rows[q.target := Bookings.Moved(s.rows[q.target], to)],
                          s.history[q.target := s.history[q.target] + [to]],
                          s.procs[p := Moved(q.target, q.seen, to)])
            else s' == s.(procs := s.procs[p := Rejected(q.target)]))
      case Arrive => false
  }

  ghost predicate SomeStep(s: State, s': State) {
    exists p, kind :: Step(s, s', p, kind)
  }

  ghost predicate Initial(s: State) {
    s == State([], [], map[])
  }

  /** A finite run: any processes, any order. */
  ghost predicate Run(run: seq<State>) {
    && run != [] && Initial(run[0])
    && forall i | 0 <= i < |run| - 1 :: SomeStep(run[i], run[i + 1])
  }

  // --- the invariant ---------------------------------------------------------------

  ghost predicate HistoryOk(row: Row, h: seq<Status>) {
    IsPath(h) && h[|h| - 1] == row.status
  }

  ghost predicate ProcessOk(rows: seq<Row>, history: seq<seq<Status>>, q: Process)
    requires |history| == |rows|
  {
    match q
    case Trying(d, index, attempt, spent) =>
      index < |d.candidates| && attempt < MAX_ATTEMPTS && spent <= MAX_ATTEMPTS * index + attempt
      && (d.status == Pending || d.status == Confirmed)
    case Reserved(d, b, spent) =>
      b < |rows| && rows[b].resource in d.candidates && rows[b].start == d.start && rows[b].end == d.end
      && spent <= MAX_ATTEMPTS * |d.candidates|
    case Refused(d, spent) => spent <= MAX_ATTEMPTS * |d.candidates|
    case Crashed(d, spent) => spent <= MAX_ATTEMPTS * |d.candidates|
    case Writing(b, e, seen) => b < |rows| && Next(seen, e).Some?
    case Moved(b, from, to) => b < |rows| && Left(history[b], from, to)
    case _ => true
  }

  /** The history went from `from` to `to`. */
  ghost predicate Left(h: seq<Status>, from: Status, to: Status) {
    exists i :: 0 <= i < |h| - 1 && h[i] == from && h[i + 1] == to
  }

  ghost predicate Apart(q1: Process, q2: Process) {
    && (q1.Reserved? && q2.Reserved? ==> q1.booking != q2.booking)
    && (q1.Moved? && q2.Moved? && q1.target == q2.target ==> q1.from != q2.from)
  }

  ghost predicate Inv(s: State) {
    && ValidTable(s.rows)
    && HistoriesOk(s.rows, s.history)
    && (forall p | p in s.procs :: ProcessOk(s.rows, s.history, s.procs[p]))
    && (forall p, r | p in s.procs && r in s.procs && p != r :: Apart(s.procs[p], s.procs[r]))
  }

  lemma InitialOk(s: State)
    requires Initial(s)
    ensures Inv(s)
  {
  }

  lemma EnterOk(s: State, d: Demand, index: nat, spent: nat)
    requires |s.history| == |s.rows| && index <= |d.candidates| && spent <= MAX_ATTEMPTS * index
    requires d.status == Pending || d.status == Confirmed
    ensures ProcessOk(s.rows, s.history, Enter(d, index, spent))
  {
  }

  /** Replacing one process by a harmless one. */
  lemma ProcessChangeOk(s: State, p: nat, q: Process)
    requires Inv(s) && ProcessOk(s.rows, s.history, q) && !q.Reserved? && !q.Moved?
    ensures Inv(s.(procs := s.procs[p := q]))
  {
  }

  /** Steps that only change the acting process. */
  lemma LocalStepOk(s: State, s': State, p: nat, kind: Kind)
    requires Inv(s) && Step(s, s', p, kind) && kind != Insert && !(kind == Write && s'.procs[p].Moved?)
    ensures Inv(s')
  {
    var q' := s'.procs[p];
    assert ProcessOk(s.rows, s.history, q') by {
      if kind == Arrive {
        if !q'.Reading? { EnterOk(s, q'.demand, 0, 0); }
      } else {
        var q := s.procs[p];
        assert ProcessOk(s.rows, s.history, q);
        if q.Trying? { EnterOk(s, q.demand, q.index + 1, q.spent + 1); }
      }
    }
    ProcessChangeOk(s, p, q');
  }

  lemma InsertOk(s: State, s': State, p: nat)
    requires Inv(s) && Step(s, s', p, Insert)
    ensures Inv(s')
  {
    var q := s.procs[p];
    InsertKeepsValid(s.rows, q.demand.RowOn(q.index));
    forall b | 0 <= b < |s'.rows| ensures HistoryOk(s'.rows[b], s'.history[b]) {
      if b < |s.rows| { assert HistoryOk(s.rows[b], s.history[b]); }
    }
    forall r | r in s'.procs ensures ProcessOk(s'.rows, s'.history, s'.procs[r]) {
      if r != p { assert ProcessOk(s.rows, s.history, s.procs[r]); }
    }
  }

  lemma WriteOk(s: State, s': State, p: nat)
    requires Inv(s) && Step(s, s', p, Write) && s'.procs[p].Moved?
    ensures Inv(s')
  {
    var q := s.procs[p];
    var b, to := q.target, s'.procs[p].to;
    MoveKeepsValid(s.rows, b, q.event);
    MoveKeepsHistories(s.rows, s.history, b, q.event);
    JustLeft(s.history[b], to);
    forall r | r in s.procs && r != p
      ensures ProcessOk(s'.rows, s'.history, s.procs[r]) && ApartBoth(s'.procs[p], s.procs[r])
    {
      assert ProcessOk(s.rows, s.history, s.procs[r]);
      MoveKeepsProcess(s.rows, s.history, b, to, s.procs[r]);
      MoveIsNew(s.rows, s.history, s.procs[r], s'.procs[p]);
    }
  }

  ghost predicate HistoriesOk(rows: seq<Row>, history: seq<seq<Status>>) {
    |history| == |rows| && forall b | 0 <= b < |rows| :: HistoryOk(rows[b], history[b])
  }

  lemma MoveKeepsHistories(rows: seq<Row>, history: seq<seq<Status>>, b: nat, event: Event)
    requires HistoriesOk(rows, history) && b < |rows| && Next(rows[b].status, event).Some?
    ensures var to := Next(rows[b].status, event).value;
            HistoriesOk(rows[b := Bookings.Moved(rows[b], to)], history[b := history[b] + [to]])
  {
    assert HistoryOk(rows[b], history[b]);
    HistoryGrows(history[b], rows[b].status, event);
  }

  ghost predicate ApartBoth(q1: Process, q2: Process) {
    Apart(q1, q2) && Apart(q2, q1)
  }

  /** A process that leaves the current status of a booking is the first to leave it. */
  lemma MoveIsNew(rows: seq<Row>, history: seq<seq<Status>>, q: Process, moved: Process)
    requires |rows| == |history| && ProcessOk(rows, history, q)
    requires moved.Moved? && moved.target < |rows| && HistoryOk(rows[moved.target], history[moved.target])
    requires moved.from == rows[moved.target].status
    ensures ApartBoth(moved, q)
  {
    if q.Moved? && q.target == moved.target {
      LeftIsNotLast(history[q.target], q.from, q.to);
    }
  }

  lemma MoveKeepsProcess(rows: seq<Row>, history: seq<seq<Status>>, b: nat, to: Status, q: Process)
    requires |rows| == |history| && b < |rows| && ProcessOk(rows, history, q)
    ensures ProcessOk(rows[b := Bookings.Moved(rows[b], to)], history[b := history[b] + [to]], q)
  {
    if q.Moved? && q.target == b { StillLeft(history[b], history[b] + [to], q.from, q.to); }
  }

  lemma HistoryGrows(h: seq<Status>, from: Status, event: Event)
    requires IsPath(h) && h[|h| - 1] == from && Next(from, event).Some?
    ensures IsPath(h + [Next(from, event).value])
  {
    var h' := h + [Next(from, event).value];
    forall i | 0 <= i < |h'| - 1 ensures Follows(h'[i], h'[i + 1]) {
      if i < |h| - 1 { assert Follows(h[i], h[i + 1]); }
    }
  }

  lemma JustLeft(h: seq<Status>, to: Status)
    requires h != []
    ensures Left(h + [to], h[|h| - 1], to)
  {
    assert (h + [to])[|h| - 1] == h[|h| - 1] && (h + [to])[|h| - 1 + 1] == to;
  }

  lemma StillLeft(h: seq<Status>, h': seq<Status>, from: Status, to: Status)
    requires Left(h, from, to) && |h| <= |h'| && h'[..|h|] == h
    ensures Left(h', from, to)
  {
    var i :| 0 <= i < |h| - 1 && h[i] == from && h[i + 1] == to;
    assert h'[i] == h'[..|h|][i] && h'[i + 1] == h'[..|h|][i + 1];
  }

  lemma LeftIsNotLast(h: seq<Status>, from: Status, to: Status)
    requires IsPath(h) && Left(h, from, to)
    ensures from != h[|h| - 1]
  {
    HistoriesAreShort(h);
  }

  lemma StepOk(s: State, s': State, p: nat, kind: Kind)
    requires Inv(s) && Step(s, s', p, kind)
    ensures Inv(s')
  {
    if kind == Insert {
      InsertOk(s, s', p);
    } else if kind == Write && s'.procs[p].Moved? {
      WriteOk(s, s', p);
    } else {
      LocalStepOk(s, s', p, kind);
    }
  }

  lemma SomeStepOk(s: State, s': State)
    requires Inv(s) && SomeStep(s, s')
    ensures Inv(s') && Keeps(s, s')
  {
    var p, kind :| Step(s, s', p, kind);
    StepOk(s, s', p, kind);
    StepKeeps(s, s', p, kind);
  }

  lemma {:induction false} RunOk(run: seq<State>, i: nat)
    requires Run(run) && i < |run|
    ensures Inv(run[i])
  {
    if i == 0 {
      InitialOk(run[0]);
    } else {
      RunOk(run, i - 1);
      assert SomeStep(run[i - 1], run[i - 1 + 1]);
      SomeStepOk(run[i - 1], run[i]);
    }
  }

  // --- what holds of every run -----------------------------------------------------

  /** No run ever double-books: active bookings on one resource never overlap, and at any
      instant at most K of them cover any K resources. */
  lemma NoDoubleBooking(run: seq<State>, i: nat)
    requires Run(run) && i < |run|
    ensures forall a, b | 0 <= a < b < |run[i].rows| && run[i].rows[a].Active() && run[i].rows[b].Active()
                          && run[i].rows[a].resource == run[i].rows[b].resource ::
              run[i].rows[a].end <= run[i].rows[b].start || run[i].rows[b].end <= run[i].rows[a].start
    ensures forall rs: set<Id>, t: int :: |Covering(run[i].rows, rs, t)| <= |rs|
  {
    RunOk(run, i);
    forall a, b | 0 <= a < b < |run[i].rows| ensures !Conflict(run[i].rows[a], run[i].rows[b]) {
    }
    forall rs: set<Id>, t: int ensures |Covering(run[i].rows, rs, t)| <= |rs| {
      CapacityBound(run[i].rows, rs, t);
    }
  }

  /** Each booking's history is a path of at most three steps that never repeats a status, so a
      guard on the status read is as good as a guard on a version; and `cancelled_by` always
      matches the status. */
  lemma Histories(run: seq<State>, i: nat, b: nat)
    requires Run(run) && i < |run| && b < |run[i].rows|
    ensures |run[i].history| == |run[i].rows|
    ensures var h := run[i].history[b];
            IsPath(h) && |h| <= 4 && h[|h| - 1] == run[i].rows[b].status
                && forall j, k | 0 <= j < k < |h| :: h[j] != h[k]
    ensures run[i].rows[b].cancelledBy == Some(Customer) <==> run[i].rows[b].status == CancelledByCustomer
    ensures run[i].rows[b].cancelledBy == Some(Provider) <==> run[i].rows[b].status == CancelledByProvider
  {
    RunOk(run, i);
    assert HistoryOk(run[i].rows[b], run[i].history[b]);
    HistoriesAreShort(run[i].history[b]);
  }

  /** Of the transitions that read one status of one booking, at most one commits; and two
      reservations never hold the same row. */
  lemma OneWinner(run: seq<State>, i: nat, p: nat, r: nat)
    requires Run(run) && i < |run| && p in run[i].procs && r in run[i].procs && p != r
    ensures var q1, q2 := run[i].procs[p], run[i].procs[r];
            && (q1.Moved? && q2.Moved? && q1.target == q2.target ==> q1.from != q2.from)
            && (q1.Reserved? && q2.Reserved? ==> q1.booking != q2.booking)
  {
    RunOk(run, i);
    assert Apart(run[i].procs[p], run[i].procs[r]);
  }

  /** A request runs at most three transactions per candidate. */
  lemma TransactionBudget(run: seq<State>, i: nat, p: nat)
    requires Run(run) && i < |run| && p in run[i].procs
    ensures var q := run[i].procs[p];
            (q.Trying? || q.Reserved? || q.Refused? || q.Crashed?) ==> q.spent <= 3 * |q.demand.candidates|
  {
    RunOk(run, i);
    assert ProcessOk(run[i].rows, run[i].history, run[i].procs[p]);
  }

  /** What a step keeps of every existing booking. */
  ghost predicate Keeps(s: State, s': State) {
    && |s.rows| <= |s'.rows|
    && forall b | 0 <= b < |s.rows| ::
         && s'.rows[b].resource == s.rows[b].resource && s'.rows[b].start == s.rows[b].start
             && s'.rows[b].end == s.rows[b].end
         && (!s.rows[b].Active() ==> s'.rows[b] == s.rows[b])
  }

  lemma StepKeeps(s: State, s': State, p: nat, kind: Kind)
    requires Inv(s) && Step(s, s', p, kind)
    ensures Keeps(s, s')
  {
    if kind == Write && s'.procs[p].Moved? {
      TransitionsClimb(s.procs[p].seen, s.procs[p].event);
    }
  }

  lemma RunStepKeeps(run: seq<State>, j: nat)
    requires Run(run) && 0 < j < |run|
    ensures Keeps(run[j - 1], run[j])
  {
    RunOk(run, j - 1);
    assert SomeStep(run[j - 1], run[j - 1 + 1]);
    SomeStepOk(run[j - 1], run[j]);
  }

  lemma KeepsTwice(s1: State, s2: State, s3: State)
    requires Keeps(s1, s2) && Keeps(s2, s3)
    ensures Keeps(s1, s3)
  {
  }

  /** A booking keeps its resource and interval for ever, and one that has stopped occupying its
      resource never changes again: nothing is ever reactivated. */
  lemma {:induction false} NothingIsReactivated(run: seq<State>, i: nat, j: nat)
    requires Run(run) && i <= j < |run|
    ensures Keeps(run[i], run[j])
  {
    if i < j {
      NothingIsReactivated(run, i, j - 1);
      RunStepKeeps(run, j);
      KeepsTwice(run[i], run[j - 1], run[j]);
    }
  }
}
