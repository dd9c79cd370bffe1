/** internal/booking/service.go: one reservation, from a requested start to a committed row.

    Other transactions running in between are the subject of Protocol; here the table stands
    still and the database may only deadlock or break. */
module Reservations {
  import opened Wrappers
  import opened Sorting
  import opened Windows
  import opened Slots
  import opened SlotLaws
  import opened Lifecycle
  import opened Bookings
  import opened Scheduler

  /** What may befall one insert transaction besides the constraints. */
  datatype Fault = Quiet | Deadlock | DeadlockThenCancelled | Broken

  datatype TransitionError = NotFound | InvalidTransition

  class BookingTable {
    var rows: seq<Row>

    ghost predicate Valid()
      reads this
    {
      ValidTable(rows)
    }

    constructor ()
      ensures Valid() && rows == []
    {
      rows := [];
    }

    /** The INSERT of one transaction. */
    method CreateBooking(row: Row, fault: Fault) returns (r: Result<nat, DbError>)
      requires Valid() && row.cancelledBy == Canceller(row.status)
      modifies this
      ensures Valid()
      ensures fault != Quiet ==> r == Failure(Retryable)
      ensures fault == Quiet && row.start >= row.end ==> r == Failure(CheckViolation)
      ensures fault == Quiet && row.start < row.end ==>
                r == if MayInsert(old(rows), row) then Success(|old(rows)|) else Failure(ExclusionViolation)
      ensures rows == if r.Success? then old(rows) + [row] else old(rows)
    {
      if fault != Quiet {
        return Failure(Retryable);
      }
      if row.end <= row.start {
        return Failure(CheckViolation);
      }
      for i := 0 to |rows|
        invariant forall j | 0 <= j < i :: !Conflict(rows[j], row)
        invariant rows == old(rows)
      {
        if Conflict(rows[i], row) {
          return Failure(ExclusionViolation);
        }
      }
      InsertKeepsValid(rows, row);
      rows := rows + [row];
      return Success(|rows| - 1);
    }

    /** `Transition`: read the status, ask the machine, write guarded on what was read. */
    method Transition(id: nat, event: Event) returns (moved: Result<Status, TransitionError>)
      requires Valid()
      modifies this
      ensures Valid()
      ensures moved == Failure(NotFound) <==> id >= |old(rows)|
      ensures moved == Failure(InvalidTransition) <==> id < |old(rows)| && Next(old(rows)[id].status, event).None?
      ensures moved.Success? ==>
                && Next(old(rows)[id].status, event) == Some(moved.value)
                && rows == old(rows)[id := Moved(old(rows)[id], moved.value)]
                && rows[id].status == moved.value
                && (rows[id].cancelledBy == Some(Customer) <==> event == CancelAsCustomer)
                && (rows[id].cancelledBy == Some(Provider) <==> event == CancelAsProvider)
      ensures moved.Failure? ==> rows == old(rows)
    {
      if id >= |rows| {
        return Failure(NotFound);
      }
      var current := rows[id].status;
      var next := Next(current, event);
      if next.None? {
        return Failure(InvalidTransition);
      }
      if rows[id].status != current {
        return Failure(InvalidTransition);   // another request moved it: see Protocol
      }
      MoveKeepsValid(rows, id, event);
      NextExactly(current);
      rows := rows[id := Moved(rows[id], next.value)];
      return Success(next.value);
    }
  }

  datatype Attempt = Booked(id: nat) | Gone | Failed

  // --- the retry loop of one resource --------------------------------------------

  /** Some attempt within the budget is not lost to a deadlock, and every earlier one is
      retried: the attempt that decides. */
  predicate Decides(faults: nat -> Fault, attempt: nat) {
    && attempt < MAX_ATTEMPTS
    && faults(attempt) != Deadlock
    && (forall a: nat | a < attempt :: faults(a) == Deadlock)
  }

  ghost predicate TryOutcome(rows: seq<Row>, row: Row, faults: nat -> Fault, r: Attempt) {
    if forall a: nat | a < MAX_ATTEMPTS :: faults(a) == Deadlock then r == Gone
    else
      forall a: nat | Decides(faults, a) ::
        match faults(a)
        case Quiet =>
          if row.start >= row.end then r == Failed
          else if MayInsert(rows, row) then r == Booked(|rows|)
          else r == Gone
        case DeadlockThenCancelled => r == if a == MAX_ATTEMPTS - 1 then Gone else Failed
        case _ => r == Failed
  }

  /** `tryResource` around `insertOnce`: at most three transactions. */
  method TryResource(table: BookingTable, row: Row, faults: nat -> Fault) returns (r: Attempt, ghost transactions: nat)
    requires table.Valid() && row.cancelledBy == Canceller(row.status)
    modifies table
    ensures table.Valid()
    ensures TryOutcome(old(table.rows), row, faults, r)
    ensures table.rows == if r.Booked? then old(table.rows) + [row] else old(table.rows)
    ensures transactions <= MAX_ATTEMPTS
  {
    transactions := 0;
    for attempt := 0 to MAX_ATTEMPTS
      invariant forall a: nat | a < attempt :: faults(a) == Deadlock
      invariant table.rows == old(table.rows) && table.Valid() && transactions == attempt
    {
      transactions := transactions + 1;
      assert faults(attempt) != Deadlock ==> Decides(faults, attempt);
      if faults(attempt) == Broken {
        return Failed, transactions;
      }
      var created := table.CreateBooking(row, faults(attempt));
      match created
      case Success(id) =>
        return Booked(id), transactions;
      case Failure(ExclusionViolation) =>
        return Gone, transactions;
      case Failure(Retryable) =>
        if attempt == MAX_ATTEMPTS - 1 {
          return Gone, transactions;
        }
        if faults(attempt) == DeadlockThenCancelled {
          return Failed, transactions;
        }
      case Failure(CheckViolation) =>
        return Failed, transactions;
    }
    return Gone, transactions;
  }

  // --- walking the candidates ----------------------------------------------------

  datatype Request = Request(start: int, end: int, status: Status)
  {
    function RowOn(resource: Id): Row {
      Row(resource, start, end, status, Canceller(status))
    }
  }

  ghost predicate GivesUp(rows: seq<Row>, p: Request, candidates: seq<Id>, faults: nat -> nat -> Fault, i: nat)
    requires i < |candidates|
  {
    TryOutcome(rows, p.RowOn(candidates[i]), faults(i), Gone)
  }

  /** The first `tried` candidates turned out gone; the next one, if any, decided. */
  ghost predicate Inserted(before: seq<Row>, p: Request, candidates: seq<Id>, faults: nat -> nat -> Fault,
                           tried: nat, r: Result<nat, Error>, after: seq<Row>) {
    && tried <= |candidates|
    && (forall i | 0 <= i < tried :: GivesUp(before, p, candidates, faults, i))
    && (r == Failure(SlotTaken) <==> tried == |candidates|)
    && (if r.Success? then
          && tried < |candidates| && r.value == |before|
          && TryOutcome(before, p.RowOn(candidates[tried]), faults(tried), Booked(r.value))
          && after == before + [p.RowOn(candidates[tried])]
        else
          && after == before
          && (tried < |candidates| ==>
                r.error == InternalError && TryOutcome(before, p.RowOn(candidates[tried]), faults(tried), Failed)))
  }

  /** `insertBooking`: walks the candidates; when all are gone the slot is taken. */
  method InsertBooking(table: BookingTable, p: Request, candidates: seq<Id>, faults: nat -> nat -> Fault)
    returns (r: Result<nat, Error>, ghost tried: nat, ghost transactions: nat)
    requires table.Valid()
    modifies table
    ensures table.Valid()
    ensures Inserted(old(table.rows), p, candidates, faults, tried, r, table.rows)
    ensures transactions <= MAX_ATTEMPTS * |candidates|
  {
    tried, transactions := 0, 0;
    for i := 0 to |candidates|
      invariant table.Valid() && table.rows == old(table.rows)
      invariant tried == i && transactions <= MAX_ATTEMPTS * i
      invariant forall j | 0 <= j < i :: GivesUp(old(table.rows), p, candidates, faults, j)
    {
      var attempt, n := TryResource(table, p.RowOn(candidates[i]), faults(i));
      transactions := transactions + n;
      match attempt
      case Booked(id) => return Success(id), tried, transactions;
      case Failed => return Failure(InternalError), tried, transactions;
      case Gone => tried := tried + 1;
    }
    return Failure(SlotTaken), tried, transactions;
  }

  // --- what a refusal means -------------------------------------------------------

  /** Every attempt at the candidate was lost to a deadlock. */
  predicate LostAll(faults: nat -> Fault) {
    faults(0) == Deadlock && faults(1) == Deadlock && (faults(2) == Deadlock || faults(2) == DeadlockThenCancelled)
  }

  /** Some attempt got through to the constraints, after nothing but deadlocks. */
  ghost predicate GotThrough(faults: nat -> Fault) {
    exists a: nat :: Decides(faults, a) && faults(a) == Quiet
  }

  /** The exclusion constraint, rather than the check on the interval, forbids the row. */
  ghost predicate Held(rows: seq<Row>, row: Row) {
    row.start < row.end && !MayInsert(rows, row)
  }

  /** A candidate is given up exactly when an overlapping booking holds it or all its attempts
      were lost. */
  lemma GivenUpExactly(rows: seq<Row>, row: Row, faults: nat -> Fault)
    ensures TryOutcome(rows, row, faults, Gone) <==> LostAll(faults) || (GotThrough(faults) && Held(rows, row))
  {
    if faults(0) != Deadlock {
      assert Decides(faults, 0);
    } else if faults(1) != Deadlock {
      assert Decides(faults, 1);
    } else if faults(2) != Deadlock {
      assert Decides(faults, 2);
    }
  }

  lemma OneOutcome(rows: seq<Row>, row: Row, faults: nat -> Fault, r1: Attempt, r2: Attempt)
    requires TryOutcome(rows, row, faults, r1) && TryOutcome(rows, row, faults, r2)
    ensures r1 == r2
  {
    if a: nat :| a < MAX_ATTEMPTS && faults(a) != Deadlock {
      var first := if faults(0) != Deadlock then 0 else if faults(1) != Deadlock then 1 else 2;
      assert Decides(faults, first);
    }
  }

  /** SLOT_TAKEN exactly when each candidate is held by an overlapping booking or lost all its
      attempts. */
  lemma RefusedExactly(before: seq<Row>, p: Request, candidates: seq<Id>, faults: nat -> nat -> Fault,
                       tried: nat, r: Result<nat, Error>, after: seq<Row>)
    requires Inserted(before, p, candidates, faults, tried, r, after)
    ensures r == Failure(SlotTaken) <==>
            forall i | 0 <= i < |candidates| ::
              LostAll(faults(i)) || (GotThrough(faults(i)) && Held(before, p.RowOn(candidates[i])))
  {
    forall i | 0 <= i < |candidates|
      ensures GivesUp(before, p, candidates, faults, i) <==>
              LostAll(faults(i)) || (GotThrough(faults(i)) && Held(before, p.RowOn(candidates[i])))
    {
      GivenUpExactly(before, p.RowOn(candidates[i]), faults(i));
    }
    if tried < |candidates| && GivesUp(before, p, candidates, faults, tried) {
      var r1 := if r.Success? then Booked(r.value) else Failed;
      OneOutcome(before, p.RowOn(candidates[tried]), faults(tried), Gone, r1);
    }
  }

  /** A refusal leaves a free candidate behind if and only if some free candidate lost all its
      attempts to deadlocks. */
  lemma RefusalIsGenuine(before: seq<Row>, p: Request, candidates: seq<Id>, faults: nat -> nat -> Fault,
                         tried: nat, after: seq<Row>)
    requires Inserted(before, p, candidates, faults, tried, Failure(SlotTaken), after)
    ensures (exists i :: 0 <= i < |candidates| && MayInsert(before, p.RowOn(candidates[i]))) <==>
            (exists i :: 0 <= i < |candidates| && MayInsert(before, p.RowOn(candidates[i])) && LostAll(faults(i)))
  {
    RefusedExactly(before, p, candidates, faults, tried, Failure(SlotTaken), after);
  }

  // --- Create ---------------------------------------------------------------------

  /** `resourcesForStart`, after the day's slots have been read. */
  method ResourcesForStart(slots: seq<Slot>, startsAt: int) returns (r: Result<seq<Id>, Error>)
    requires Ascending(Earlier, slots)
    ensures r == Failure(OutsideHours) <==> forall s | s in slots :: s.startsAt != startsAt
    ensures forall s | s in slots && s.startsAt == startsAt ::
              r == if s.resources == [] then Failure(SlotTaken) else Success(s.resources)
  {
    for i := 0 to |slots|
      invariant forall s | s in slots[..i] :: s.startsAt != startsAt
    {
      if slots[i].startsAt == startsAt {
        assert forall s | s in slots && s.startsAt == startsAt :: s == slots[i];
        if |slots[i].resources| == 0 {
          return Failure(SlotTaken);
        }
        return Success(slots[i].resources);
      }
    }
    assert slots[..|slots|] == slots;
    return Failure(OutsideHours);
  }

  /** The resources Create may end up on. */
  ghost predicate Eligible(req: SlotRequest, t: int, wanted: Option<Id>, r: Id) {
    req.Free(t, r) && (wanted.None? || wanted == Some(r))
  }

  ghost predicate NoFaults(faults: nat -> nat -> Fault) {
    forall i, a :: faults(i)(a) == Quiet
  }

  /** What resourcesForStart finds, in terms of the request behind the list. */
  lemma FoundFacts(req: SlotRequest, slots: seq<Slot>, t: int, found: Result<seq<Id>, Error>)
    requires IsSlotList(req, slots) && req.includeFullyBooked
    requires found == Failure(OutsideHours) <==> forall s | s in slots :: s.startsAt != t
    requires forall s | s in slots && s.startsAt == t ::
               found == if s.resources == [] then Failure(SlotTaken) else Success(s.resources)
    ensures found == Failure(OutsideHours) <==> !req.Open(t)
    ensures found == Failure(SlotTaken) <==> req.Open(t) && forall x :: !req.Free(t, x)
    ensures found.Failure? ==> found.error == OutsideHours || found.error == SlotTaken
    ensures found.Success? ==> Ascending(LexLess, found.value) && found.value != []
    ensures found.Success? ==> forall x :: x in found.value <==> req.Free(t, x)
  {
    ListedHasSlot(req, slots, t);
    if req.Open(t) {
      var s :| s in slots && s.startsAt == t;
      if s.resources != [] { assert req.Free(t, s.resources[0]); }
    }
  }

  /** What Create may end up on, least first. */
  ghost predicate AreCandidates(req: SlotRequest, t: int, wanted: Option<Id>, candidates: seq<Id>) {
    && Ascending(LexLess, candidates) && candidates != []
    && forall x :: x in candidates <==> Eligible(req, t, wanted, x)
  }

  /** The resources to try for a start, in order: all the free ones, or the one staff named. */
  method CandidatesFor(ghost req: SlotRequest, slots: seq<Slot>, t: int, wanted: Option<Id>)
    returns (r: Result<seq<Id>, Error>)
    requires IsSlotList(req, slots) && req.includeFullyBooked
    ensures r == Failure(OutsideHours) <==> !req.Open(t)
    ensures r == Failure(SlotTaken) <==> req.Open(t) && forall x :: !Eligible(req, t, wanted, x)
    ensures r.Failure? ==> r.error == OutsideHours || r.error == SlotTaken
    ensures r.Success? ==> AreCandidates(req, t, wanted, r.value)
    ensures r.Success? && wanted.Some? ==> r.value == [wanted.value] && req.Free(t, wanted.value)
    ensures r.Success? && wanted.None? ==> forall x :: x in r.value <==> req.Free(t, x)
  {
    var found := ResourcesForStart(slots, t);
    FoundFacts(req, slots, t, found);
    if found.Failure? || wanted.None? {
      assert wanted.None? ==> forall x :: Eligible(req, t, wanted, x) <==> req.Free(t, x);
      assert found.Success? ==> Eligible(req, t, wanted, found.value[0]);
      return found;
    }
    if wanted.value !in found.value {
      return Failure(SlotTaken);
    }
    assert Eligible(req, t, wanted, wanted.value);
    return Success([wanted.value]);
  }

  lemma FirstIsLeast(req: SlotRequest, t: int, wanted: Option<Id>, candidates: seq<Id>)
    requires Ascending(LexLess, candidates) && forall x :: x in candidates <==> Eligible(req, t, wanted, x)
    ensures forall x | Eligible(req, t, wanted, x) :: candidates != [] && !LexLess(x, candidates[0])
  {
    forall x | Eligible(req, t, wanted, x) ensures candidates != [] && !LexLess(x, candidates[0]) {
      assert x in candidates;
      LexTrichotomy(x, candidates[0]);
    }
  }

  /** The row Create commits for a start: the interval that was checked, on an eligible resource. */
  ghost predicate IsCommittedRow(req: SlotRequest, t: int, wanted: Option<Id>, instant: bool, row: Row) {
    && Eligible(req, t, wanted, row.resource)
    && row == Row(row.resource, t, t + req.total, if instant then Confirmed else Pending, None)
  }

  /** Outcome of reserving t against the full slot list of req. */
  ghost predicate Reserved(req: SlotRequest, t: int, wanted: Option<Id>, instant: bool,
                           before: seq<Row>, r: Result<nat, Error>, after: seq<Row>) {
    // OUTSIDE_HOURS exactly when the start is not on the grid: bookings have no say in it
    && (r == Failure(OutsideHours) <==> !req.Open(t))
    && (if r.Success? then
          r.value == |before| && |after| == |before| + 1 && after == before + [after[r.value]]
          && IsCommittedRow(req, t, wanted, instant, after[r.value])
        else after == before)
  }

  /** With nothing in the way, SLOT_TAKEN means that nothing eligible is free; otherwise the
      least eligible resource is booked. */
  ghost predicate ReservedQuietly(req: SlotRequest, t: int, wanted: Option<Id>, r: Result<nat, Error>, after: seq<Row>)
    requires r.Success? ==> r.value < |after|
  {
    && (r == Failure(SlotTaken) <==> req.Open(t) && forall x :: !Eligible(req, t, wanted, x))
    && (r.Success? <==> exists x :: Eligible(req, t, wanted, x))
    && (r.Success? ==> forall x | Eligible(req, t, wanted, x) :: !LexLess(x, after[r.value].resource))
  }

  lemma QuietInsert(before: seq<Row>, p: Request, candidates: seq<Id>, faults: nat -> nat -> Fault,
                    tried: nat, r: Result<nat, Error>, after: seq<Row>)
    requires Inserted(before, p, candidates, faults, tried, r, after)
    requires NoFaults(faults) && candidates != [] && MayInsert(before, p.RowOn(candidates[0]))
    ensures r.Success? && tried == 0
  {
    assert Decides(faults(0), 0);
    assert !TryOutcome(before, p.RowOn(candidates[0]), faults(0), Gone);
    assert !TryOutcome(before, p.RowOn(candidates[0]), faults(0), Failed);
    assert tried > 0 ==> GivesUp(before, p, candidates, faults, 0);
  }

  method Reserve(table: BookingTable, ghost req: SlotRequest, slots: seq<Slot>, startsAt: int, endsAt: int,
                 wanted: Option<Id>, instant: bool, faults: nat -> nat -> Fault)
    returns (r: Result<nat, Error>)
    requires table.Valid() && IsSlotList(req, slots) && req.includeFullyBooked && endsAt == startsAt + req.total
    modifies table
    ensures table.Valid()
    ensures Reserved(req, startsAt, wanted, instant, old(table.rows), r, table.rows)
    ensures NoFaults(faults) && FreeIsInsertable(req, startsAt, old(table.rows)) ==>
              ReservedQuietly(req, startsAt, wanted, r, table.rows)
  {
    var candidates := CandidatesFor(req, slots, startsAt, wanted);
    if candidates.Failure? {
      return Failure(candidates.error);
    }
    var p := Request(startsAt, endsAt, if instant then Confirmed else Pending);
    ghost var tried, transactions;
    r, tried, transactions := InsertBooking(table, p, candidates.value, faults);
    InsertedIsReserved(req, startsAt, wanted, instant, old(table.rows), p, candidates.value, faults, tried, r,
                       table.rows);
    if NoFaults(faults) && FreeIsInsertable(req, startsAt, old(table.rows)) {
      QuietIsReserved(req, startsAt, wanted, old(table.rows), p, candidates.value, faults, tried, r, table.rows);
    }
  }

  /** The table has room for every appointment the request calls free at t. */
  ghost predicate FreeIsInsertable(req: SlotRequest, t: int, rows: seq<Row>) {
    forall row: Row | req.Free(t, row.resource) && row.start == t && row.end == t + req.total :: MayInsert(rows, row)
  }

  lemma InsertedIsReserved(req: SlotRequest, t: int, wanted: Option<Id>, instant: bool, before: seq<Row>, p: Request,
                           candidates: seq<Id>, faults: nat -> nat -> Fault, tried: nat, r: Result<nat, Error>,
                           after: seq<Row>)
    requires AreCandidates(req, t, wanted, candidates) && Inserted(before, p, candidates, faults, tried, r, after)
    requires p == Request(t, t + req.total, if instant then Confirmed else Pending)
    ensures Reserved(req, t, wanted, instant, before, r, after)
  {
    assert candidates[0] in candidates;
    FreeIsOpenAndLate(req, t, candidates[0]);
    if r.Success? { assert candidates[tried] in candidates; }
  }

  lemma QuietIsReserved(req: SlotRequest, t: int, wanted: Option<Id>, before: seq<Row>, p: Request,
                        candidates: seq<Id>, faults: nat -> nat -> Fault, tried: nat, r: Result<nat, Error>,
                        after: seq<Row>)
    requires AreCandidates(req, t, wanted, candidates) && Inserted(before, p, candidates, faults, tried, r, after)
    requires p.start == t && p.end == t + req.total && NoFaults(faults) && FreeIsInsertable(req, t, before)
    ensures r.Success? && ReservedQuietly(req, t, wanted, r, after)
  {
    assert candidates[0] in candidates;
    FreeIsOpenAndLate(req, t, candidates[0]);
    QuietInsert(before, p, candidates, faults, tried, r, after);
    FirstIsLeast(req, t, wanted, candidates);
  }

  /** If t is a start at all, the busy query Create makes for it covers the whole appointment. */
  ghost predicate QuerySees(db: Tables, service: ServiceInfo, t: int, now: int) {
    DayRequest(db, service, t, now, true).Open(t) ==>
      Spans(db.location, db.location.dayOf(t), t, TotalDuration(service.quotedMinutes, service.bufferMinutes))
  }

  /** On a day that holds, every query sees enough. */
  lemma HeldDayIsSeen(db: Tables, service: ServiceInfo, t: int, now: int)
    requires ValidTables(db) && DayHolds(db.location, db.location.dayOf(t))
    ensures QuerySees(db, service, t, now)
  {
    var req := DayRequest(db, service, t, now, true);
    if req.Open(t) {
      var w :| w in req.windows && req.OnGrid(w, t);
      var n := DayGrid(db, service, t, now, true, w, t);
    }
  }

  /** Create, for a service already priced. When the query covers the appointment the answer is
      exact; in any case a committed row is the interval that was checked. */
  method Create(table: BookingTable, db: Tables, service: ServiceInfo, requestedStart: int, wanted: Option<Id>,
                instant: bool, now: int, faults: nat -> nat -> Fault)
    returns (r: Result<nat, Error>)
    requires ValidTables(db) && table.rows == db.bookings
    modifies table
    ensures table.Valid()
    ensures Unbookable(service).Some? ==> r == Failure(Unbookable(service).value) && table.rows == db.bookings
    ensures Unbookable(service).None? ==>
              Reserved(DayRequest(db, service, Truncate(requestedStart), now, true), Truncate(requestedStart),
                       wanted, instant,
                       db.bookings, r, table.rows)
    ensures Unbookable(service).None? && NoFaults(faults) && QuerySees(db, service, Truncate(requestedStart), now) ==>
              ReservedQuietly(DayRequest(db, service, Truncate(requestedStart), now, true), Truncate(requestedStart),
                              wanted, r, table.rows)
  {
    if !service.isActive {
      return Failure(ServiceInactive);
    }
    if !service.providerActive {
      return Failure(ProviderInactive);
    }
    var startsAt := Truncate(requestedStart);
    var endsAt := startsAt + TotalDuration(service.quotedMinutes, service.bufferMinutes);
    var slots := DaySlots(db, service, startsAt, now, true);
    ghost var req := DayRequest(db, service, startsAt, now, true);
    if QuerySees(db, service, startsAt, now) {
      forall row: Row | req.Free(startsAt, row.resource) && row.start == startsAt && row.end == startsAt + req.total
        ensures MayInsert(db.bookings, row)
      {
        FreeIsOpenAndLate(req, startsAt, row.resource);
        FreeCanBeInserted(db, service, startsAt, now, true, startsAt, row.resource, row);
      }
    }
    r := Reserve(table, req, slots.value, startsAt, endsAt, wanted, instant, faults);
  }
}
