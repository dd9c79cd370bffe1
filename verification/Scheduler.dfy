/** internal/scheduling/service.go and internal/catalog/scheduling_port.go: a day's slots for
    one service, and why a start that was offered is found again when it is booked. */
module Scheduler {
  import opened Wrappers
  import opened Sorting
  import opened Calendar
  import opened Windows
  import opened Slots
  import opened SlotLaws
  import opened Bookings
  import opened Lifecycle

  /** What ResolveScheduling takes from the catalog. */
  datatype ServiceInfo = ServiceInfo(
    isActive: bool, providerActive: bool, quotedMinutes: int, bufferMinutes: int, minLeadMinutes: int)

  datatype Error = ServiceInactive | ProviderInactive | OutsideHours | SlotTaken | InternalError

  datatype ServiceScheduling = ServiceScheduling(total: int, minLeadMinutes: int, unbookable: Option<Error>)

  /** `time.Duration(quote.DurationMinutes+service.BufferMinutes) * time.Minute`: an int32 sum
      and an int64 product. Booking computes the end of the interval by the same expression. */
  function TotalDuration(quotedMinutes: int, bufferMinutes: int): (total: int)
    ensures 0 <= quotedMinutes && 0 <= bufferMinutes && quotedMinutes + bufferMinutes <= 153_722_867
            ==> total == (quotedMinutes + bufferMinutes) * MINUTE
  {
    Wrap64(Wrap32(quotedMinutes + bufferMinutes) * MINUTE)
  }

  method ResolveScheduling(service: ServiceInfo) returns (resolved: ServiceScheduling)
    ensures resolved.total == TotalDuration(service.quotedMinutes, service.bufferMinutes)
    ensures resolved.minLeadMinutes == service.minLeadMinutes
    ensures resolved.unbookable == Unbookable(service)
    ensures resolved.unbookable.None? <==> service.isActive && service.providerActive
    ensures resolved.unbookable == Some(ProviderInactive) <==> service.isActive && !service.providerActive
  {
    resolved := ServiceScheduling(TotalDuration(service.quotedMinutes, service.bufferMinutes), service.minLeadMinutes,
                                  None);
    if !service.isActive {
      resolved := resolved.(unbookable := Some(ServiceInactive));
    } else if !service.providerActive {
      resolved := resolved.(unbookable := Some(ProviderInactive));
    }
  }

  function Unbookable(service: ServiceInfo): Option<Error> {
    if !service.isActive then Some(ServiceInactive)
    else if !service.providerActive then Some(ProviderInactive)
    else None
  }

  /** The tables and settings a day's availability is read from. Exceptions carry their date. */
  datatype Tables = Tables(
    location: Location,
    step: int,
    resources: seq<Id>,
    hours: seq<HoursRule>,
    exceptions: seq<(int, ExceptionRule)>,
    bookings: seq<Row>)

  ghost predicate ValidTables(db: Tables) {
    && Zone(db.location)
    && db.step >= MINUTE
    && ValidTable(db.bookings)
    && (forall i | 0 <= i < |db.hours| :: 0 <= db.hours[i].opens < db.hours[i].closes <= MINUTES_PER_DAY)
    && (forall i | 0 <= i < |db.exceptions| :: InDay(db.exceptions[i].1))
  }

  ghost predicate InDay(e: ExceptionRule) {
    && (e.opens.Some? ==> 0 <= e.opens.value <= MINUTES_PER_DAY)
    && (e.closes.Some? ==> 0 <= e.closes.value <= MINUTES_PER_DAY)
  }

  /** `ListScheduleExceptionsForDate`. */
  function ExceptionsOn(exceptions: seq<(int, ExceptionRule)>, day: int): (r: seq<ExceptionRule>)
    ensures forall e :: e in r <==> (day, e) in exceptions
  {
    if exceptions == [] then []
    else if exceptions[0].0 == day then [exceptions[0].1] + ExceptionsOn(exceptions[1..], day)
    else ExceptionsOn(exceptions[1..], day)
  }

  function DayStart(db: Tables, date: int): int {
    db.location.at(db.location.dayOf(date), 0)
  }

  function DayWindows(db: Tables, date: int): seq<DayWindow> {
    var dayStart := DayStart(db, date);
    var day := db.location.dayOf(dayStart);
    AllWindows(db.resources, db.hours, ExceptionsOn(db.exceptions, day), Weekday(day))
  }

  /** The request `availability` hands to the generator. */
  function DayRequest(db: Tables, service: ServiceInfo, date: int, now: int, forBooking: bool): SlotRequest {
    var dayStart := DayStart(db, date);
    SlotRequest(
      dayStart, Some(db.location), TotalDuration(service.quotedMinutes, service.bufferMinutes), db.step,
      now + service.minLeadMinutes * MINUTE, DayWindows(db, date),
      ListBusyIntervals(db.bookings, db.resources, dayStart, NextDay(db.location, dayStart)), forBooking)
  }

  /** `availability` past the cache. The early returns for no resource and for no window give
      the list the generator would give. */
  method DaySlots(db: Tables, service: ServiceInfo, date: int, now: int, forBooking: bool)
    returns (r: Result<seq<Slot>, Error>)
    requires ValidTables(db)
    ensures Unbookable(service).Some? ==> r == Failure(Unbookable(service).value)
    ensures Unbookable(service).None?
        ==> r.Success? && IsSlotList(DayRequest(db, service, date, now, forBooking), r.value)
  {
    var resolved := ResolveScheduling(service);
    if resolved.unbookable.Some? {
      return Failure(resolved.unbookable.value);
    }
    ghost var request := DayRequest(db, service, date, now, forBooking);
    if |db.resources| == 0 {
      NoWindowsNoSlots(request);
      return Success([]);
    }
    var day := db.location.dayOf(date);
    var dayStart := db.location.at(day, 0);
    var dayEnd := NextDay(db.location, dayStart);
    var exceptions := ExceptionsOn(db.exceptions, db.location.dayOf(dayStart));
    var windows := ResolveWindows(db.resources, db.hours, exceptions, Weekday(db.location.dayOf(dayStart)));
    assert windows == DayWindows(db, date);
    if |windows| == 0 {
      NoWindowsNoSlots(request);
      return Success([]);
    }
    var busy := ListBusyIntervals(db.bookings, db.resources, dayStart, dayEnd);
    var req := SlotRequest(
      dayStart, Some(db.location), resolved.total, db.step,
      now + resolved.minLeadMinutes * MINUTE, windows, busy, forBooking);
    assert req == request;
    var slots := GenerateSlots(req);
    return Success(slots);
  }

  lemma NoWindowsNoSlots(req: SlotRequest)
    requires req.windows == []
    ensures IsSlotList(req, [])
  {
  }

  // --- stored hours stay in the day -----------------------------------------------

  lemma {:induction false} RulesComeFromHours(hours: seq<HoursRule>, weekday: int, scope: Option<Id>, rule: HoursRule)
    requires rule in RulesFor(hours, weekday, scope)
    ensures rule in hours
  {
    if rule != hours[|hours| - 1] {
      RulesComeFromHours(hours[..|hours| - 1], weekday, scope, rule);
    }
  }

  lemma {:induction false} LastExceptionIsListed(exceptions: seq<ExceptionRule>, scope: Option<Id>)
    requires LastException(exceptions, scope).Some?
    ensures LastException(exceptions, scope).value in exceptions
  {
    if exceptions[|exceptions| - 1].resource != scope {
      LastExceptionIsListed(exceptions[..|exceptions| - 1], scope);
    }
  }

  lemma WindowsStayInDay(db: Tables, date: int, w: DayWindow)
    requires ValidTables(db) && w in DayWindows(db, date)
    ensures w.resource in db.resources && 0 <= w.opens <= MINUTES_PER_DAY && 0 <= w.closes <= MINUTES_PER_DAY
  {
    var day := db.location.dayOf(DayStart(db, date));
    var exceptions := ExceptionsOn(db.exceptions, day);
    WindowMembers(db.resources, db.hours, exceptions, Weekday(day), w);
    if LastException(exceptions, Some(w.resource)).Some? {
      LastExceptionIsListed(exceptions, Some(w.resource));
    } else if LastException(exceptions, None).Some? {
      LastExceptionIsListed(exceptions, None);
    } else if RulesFor(db.hours, Weekday(day), Some(w.resource)) != [] {
      RuleWindowsStayInDay(db, Weekday(day), Some(w.resource), w);
    } else {
      RuleWindowsStayInDay(db, Weekday(day), None, w);
    }
  }

  lemma RuleWindowsStayInDay(db: Tables, weekday: int, scope: Option<Id>, w: DayWindow)
    requires ValidTables(db) && w in AsWindows(w.resource, RulesFor(db.hours, weekday, scope))
    ensures 0 <= w.opens <= MINUTES_PER_DAY && 0 <= w.closes <= MINUTES_PER_DAY
  {
    var rules := RulesFor(db.hours, weekday, scope);
    var i :| 0 <= i < |rules| && AsWindows(w.resource, rules)[i] == w;
    RulesComeFromHours(db.hours, weekday, scope, rules[i]);
  }

  // --- which starts a day can offer -------------------------------------------------

  /** The local day whose hours and exceptions answer for day d: the one d's first instant shows. */
  function Shown(loc: Location, d: int): int {
    loc.dayOf(loc.at(d, 0))
  }

  /** Local minute n of the day can begin an appointment in a window from o to c, for some step. */
  ghost predicate Offerable(loc: Location, day: int, o: int, c: int, n: int, total: int) {
    && 0 <= o < c <= MINUTES_PER_DAY && o <= n
    && total > 0 && loc.at(day, o) <= loc.at(day, n) && loc.at(day, n) + total <= loc.at(day, c)
  }

  /** A duration some service has. */
  ghost predicate IsDuration(total: int) {
    exists quoted, buffer :: total == TotalDuration(quoted, buffer)
  }

  /** The busy query made for day d covers [t, t + total). */
  predicate Spans(loc: Location, d: int, t: int, total: int) {
    loc.at(d, 0) <= t && t + total <= NextDay(loc, loc.at(d, 0))
  }

  /** The query made for d covers every appointment that day d can offer. */
  ghost predicate DayHolds(loc: Location, d: int) {
    forall o, c, n, total | Offerable(loc, Shown(loc, d), o, c, n, total) && IsDuration(total) ::
      Spans(loc, d, loc.at(Shown(loc, d), n), total)
  }

  /** Every start that day d can offer leads back to the same hours. */
  ghost predicate DayFinds(loc: Location, d: int) {
    forall o, c, n, total | Offerable(loc, Shown(loc, d), o, c, n, total) && IsDuration(total) ::
      Shown(loc, loc.dayOf(loc.at(Shown(loc, d), n))) == Shown(loc, d)
  }

  /** The query made for the day of such a start covers its appointment. */
  ghost predicate DayReturns(loc: Location, d: int) {
    forall o, c, n, total | Offerable(loc, Shown(loc, d), o, c, n, total) && IsDuration(total) ::
      Spans(loc, loc.dayOf(loc.at(Shown(loc, d), n)), loc.at(Shown(loc, d), n), total)
  }

  /** An ordinary day meets all three. */
  lemma OrdinaryDayIsKept(loc: Location, d: int)
    requires OrdinaryDay(loc, d)
    ensures DayHolds(loc, d) && DayFinds(loc, d) && DayReturns(loc, d)
  {
    forall o, c, n, total | Offerable(loc, d, o, c, n, total)
      ensures Spans(loc, d, loc.at(d, n), total) && loc.dayOf(loc.at(d, n)) == d
    {
    }
  }

  lemma GridIsOfferable(req: SlotRequest, w: DayWindow, t: int) returns (n: int)
    requires req.OnGrid(w, t) && req.step >= MINUTE && req.total > 0
    requires 0 <= w.opens && w.closes <= MINUTES_PER_DAY
    ensures t == req.At(n) && Offerable(req.Zone(), req.Day(), w.opens, w.closes, n, req.total)
  {
    var k :| 0 <= k && req.GridPoint(w, k, t);
    assert req.Fits(w, k) && 0 <= k * req.Stride();
    n := w.opens + k * req.Stride();
  }

  /** What the zone and the day's date make of a start that the day's request puts on its grid. */
  lemma DayGrid(db: Tables, service: ServiceInfo, date: int, now: int, forBooking: bool, w: DayWindow, t: int)
    returns (n: int)
    requires ValidTables(db)
    requires var req := DayRequest(db, service, date, now, forBooking);
             w in req.windows && req.total > 0 && req.OnGrid(w, t)
    ensures var loc, d := db.location, db.location.dayOf(date);
            var total := TotalDuration(service.quotedMinutes, service.bufferMinutes);
            && t == loc.at(Shown(loc, d), n) && Offerable(loc, Shown(loc, d), w.opens, w.closes, n, total)
            && IsDuration(total)
  {
    WindowsStayInDay(db, date, w);
    n := GridIsOfferable(DayRequest(db, service, date, now, forBooking), w, t);
  }

  /** Reading only the bookings that meet the queried span loses nothing for an appointment inside
      it: a resource is busy exactly when some active booking in the whole table meets it. */
  lemma BusyQueryIsLossless(db: Tables, service: ServiceInfo, date: int, now: int, forBooking: bool, r: Id, t: int)
    requires r in db.resources
    requires var req := DayRequest(db, service, date, now, forBooking);
             req.total > 0 && Spans(db.location, db.location.dayOf(date), t, req.total)
    ensures var req := DayRequest(db, service, date, now, forBooking);
            req.IsBusy(r, t) <==> Occupied(db.bookings, r, t, t + req.total)
  {
    var req := DayRequest(db, service, date, now, forBooking);
    var from, to := DayStart(db, date), NextDay(db.location, DayStart(db, date));
    if i :| 0 <= i < |db.bookings| && db.bookings[i].Active() && db.bookings[i].resource == r
            && db.bookings[i].Meets(t, t + req.total) {
      var row := db.bookings[i];
      assert BusyRow(row, db.resources, from, to);
      assert BusyInterval(row.resource, row.start, row.end) in req.busy;
    }
    BusyMeansOccupied(db, service, date, now, forBooking, r, t);
  }

  lemma BusyMeansOccupied(db: Tables, service: ServiceInfo, date: int, now: int, forBooking: bool, r: Id, t: int)
    ensures var req := DayRequest(db, service, date, now, forBooking);
            req.IsBusy(r, t) ==> Occupied(db.bookings, r, t, t + req.total)
  {
    var req := DayRequest(db, service, date, now, forBooking);
    var from, to := DayStart(db, date), NextDay(db.location, DayStart(db, date));
    if b :| b in req.busy && b.resource == r && t < b.end && b.start < t + req.total {
      var i :| 0 <= i < |db.bookings| && BusyRow(db.bookings[i], db.resources, from, to)
               && b == BusyInterval(db.bookings[i].resource, db.bookings[i].start, db.bookings[i].end);
      assert db.bookings[i].Meets(t, t + req.total);
    }
  }

  /** The busy intervals of every active booking in the table. */
  ghost predicate AreActiveRows(busy: seq<BusyInterval>, rows: seq<Row>) {
    forall b :: b in busy <==> exists i ::
      0 <= i < |rows| && rows[i].Active() && b == BusyInterval(rows[i].resource, rows[i].start, rows[i].end)
  }

  /** On a day that holds, the same slots come out of the day's rows as out of every row. */
  lemma DayRowsSuffice(db: Tables, service: ServiceInfo, date: int, now: int, forBooking: bool,
                       allRows: seq<BusyInterval>, a: seq<Slot>, b: seq<Slot>)
    requires ValidTables(db) && DayHolds(db.location, db.location.dayOf(date))
    requires AreActiveRows(allRows, db.bookings)
    requires var req := DayRequest(db, service, date, now, forBooking);
             IsSlotList(req, a) && IsSlotList(req.(busy := allRows), b)
    ensures a == b
  {
    var req := DayRequest(db, service, date, now, forBooking);
    var whole := req.(busy := allRows);
    forall w, t ensures req.OnGrid(w, t) <==> whole.OnGrid(w, t) {
      SameGrid(req, whole, w, t);
      SameGrid(whole, req, w, t);
    }
    forall t, r ensures req.Free(t, r) <==> whole.Free(t, r) {
      forall w | w in req.windows && w.resource == r && req.total > 0 && req.OnGrid(w, t)
        ensures req.IsBusy(r, t) <==> whole.IsBusy(r, t)
      {
        WholeTableKnown(db, service, date, now, forBooking, whole, w, t);
      }
    }
    forall s ensures req.CorrectSlot(s) <==> whole.CorrectSlot(s) {
      assert req.Open(s.startsAt) <==> whole.Open(s.startsAt);
    }
    AscendingUnique(Earlier, a, b);
  }

  lemma WholeTableKnown(db: Tables, service: ServiceInfo, date: int, now: int, forBooking: bool,
                        whole: SlotRequest, w: DayWindow, t: int)
    requires ValidTables(db) && DayHolds(db.location, db.location.dayOf(date))
    requires AreActiveRows(whole.busy, db.bookings)
    requires var req := DayRequest(db, service, date, now, forBooking);
             whole.total == req.total && w in req.windows && req.total > 0 && req.OnGrid(w, t)
    ensures DayRequest(db, service, date, now, forBooking).IsBusy(w.resource, t) <==> whole.IsBusy(w.resource, t)
  {
    var n := DayGrid(db, service, date, now, forBooking, w, t);
    WindowsStayInDay(db, date, w);
    BusyQueryIsLossless(db, service, date, now, forBooking, w.resource, t);
    WholeTableBusy(db, whole, whole.busy, w.resource, t);
  }

  lemma WholeTableBusy(db: Tables, whole: SlotRequest, allRows: seq<BusyInterval>, r: Id, t: int)
    requires whole.busy == allRows
    requires AreActiveRows(allRows, db.bookings)
    ensures whole.IsBusy(r, t) <==> Occupied(db.bookings, r, t, t + whole.total)
  {
    if i :| 0 <= i < |db.bookings| && db.bookings[i].Active() && db.bookings[i].resource == r
            && db.bookings[i].Meets(t, t + whole.total) {
      assert BusyInterval(db.bookings[i].resource, db.bookings[i].start, db.bookings[i].end) in allRows;
    }
  }

  // --- offered means bookable -----------------------------------------------------

  lemma SameDayGrid(p: SlotRequest, q: SlotRequest, w: DayWindow, t: int)
    requires p.Zone() == q.Zone() && p.Day() == q.Day() && p.total == q.total && p.step == q.step
    requires q.earliest <= t
    ensures p.OnGrid(w, t) ==> q.OnGrid(w, t)
  {
    assert forall k :: p.GridStart(w, k) == q.GridStart(w, k);
    if p.OnGrid(w, t) {
      var k :| 0 <= k && p.GridPoint(w, k, t);
      forall j | 0 <= j <= k ensures q.Fits(w, j) { assert p.Fits(w, j); }
      assert q.GridPoint(w, k, t);
    }
  }

  /** Two requests that read the same hours and, for appointments at t, the same bookings. */
  lemma SameAnswer(p: SlotRequest, q: SlotRequest, s: Slot)
    requires p.Zone() == q.Zone() && p.Day() == q.Day() && p.total == q.total && p.step == q.step
    requires p.windows == q.windows && p.earliest <= s.startsAt && q.earliest <= s.startsAt
    requires forall w | w in p.windows && p.OnGrid(w, s.startsAt) ::
               p.IsBusy(w.resource, s.startsAt) <==> q.IsBusy(w.resource, s.startsAt)
    requires q.includeFullyBooked && p.CorrectSlot(s) && p.Open(s.startsAt)
    ensures q.CorrectSlot(s)
  {
    var t := s.startsAt;
    forall w ensures p.OnGrid(w, t) <==> q.OnGrid(w, t) {
      SameDayGrid(p, q, w, t);
      SameDayGrid(q, p, w, t);
    }
    assert q.Open(t);
    forall r ensures p.Free(t, r) <==> q.Free(t, r) {
    }
  }

  lemma FreeIsOpenAndLate(req: SlotRequest, t: int, r: Id)
    requires req.Free(t, r)
    ensures req.Open(t) && req.earliest <= t
  {
    var w :| w in req.windows && w.resource == r && req.OnGrid(w, t);
    assert exists k :: 0 <= k && req.GridPoint(w, k, t);
  }

  /** A start browsing offered, still outside the lead time, is found again when booking
      recomputes the day from the start itself: same start, same resources. */
  lemma OfferedIsFoundAgain(db: Tables, service: ServiceInfo, date: int, now: int, later: int, s: Slot)
    requires ValidTables(db)
    requires var d := db.location.dayOf(date);
             DayHolds(db.location, d) && DayFinds(db.location, d) && DayReturns(db.location, d)
    requires DayRequest(db, service, date, now, false).CorrectSlot(s)
    requires later + service.minLeadMinutes * MINUTE <= s.startsAt
    ensures DayRequest(db, service, s.startsAt, later, true).CorrectSlot(s)
  {
    var t := s.startsAt;
    var p, q := DayRequest(db, service, date, now, false), DayRequest(db, service, t, later, true);
    var r :| p.Free(t, r);
    FreeIsOpenAndLate(p, t, r);
    var w :| w in p.windows && w.resource == r && p.OnGrid(w, t);
    var n := DayGrid(db, service, date, now, false, w, t);
    assert Shown(db.location, db.location.dayOf(t)) == Shown(db.location, db.location.dayOf(date));
    assert q.windows == p.windows;
    forall v | v in p.windows && p.OnGrid(v, t) ensures p.IsBusy(v.resource, t) <==> q.IsBusy(v.resource, t) {
      WindowsStayInDay(db, date, v);
      BusyQueryIsLossless(db, service, date, now, false, v.resource, t);
      BusyQueryIsLossless(db, service, t, later, true, v.resource, t);
    }
    SameAnswer(p, q, s);
  }

  /** A resource the generator calls free, for an appointment inside the queried span, is free in
      the whole table, so the insert cannot meet the exclusion constraint. */
  lemma FreeCanBeInserted(db: Tables, service: ServiceInfo, date: int, now: int, forBooking: bool, t: int, r: Id,
                          row: Row)
    requires ValidTables(db)
    requires var req := DayRequest(db, service, date, now, forBooking);
             req.Free(t, r) && Spans(db.location, db.location.dayOf(date), t, req.total)
    requires row.resource == r && row.start == t
    requires row.end == t + TotalDuration(service.quotedMinutes, service.bufferMinutes)
    ensures MayInsert(db.bookings, row)
  {
    var req := DayRequest(db, service, date, now, forBooking);
    var w :| w in req.windows && w.resource == r && req.OnGrid(w, t);
    WindowsStayInDay(db, date, w);
    BusyQueryIsLossless(db, service, date, now, forBooking, r, t);
    forall i | 0 <= i < |db.bookings| ensures !Conflict(db.bookings[i], row) {
      assert !(db.bookings[i].Active() && db.bookings[i].resource == r && db.bookings[i].Meets(row.start, row.end));
    }
  }

  lemma FreeOnTheSecond(req: SlotRequest, t: int, r: Id)
    requires Zone(req.Zone()) && req.Free(t, r)
    ensures t % SECOND == 0
  {
    var w :| w in req.windows && w.resource == r && req.OnGrid(w, t);
    var k :| 0 <= k && req.GridPoint(w, k, t);
    assert t == req.At(w.opens + k * req.Stride());
  }

  /** The row booking would insert for the first resource of a slot. */
  function FirstRow(service: ServiceInfo, s: Slot): Row
    requires s.resources != []
  {
    var total := TotalDuration(service.quotedMinutes, service.bufferMinutes);
    Row(s.resources[0], s.startsAt, s.startsAt + total, Pending, None)
  }

  /** The start survives truncation to the second, the request booking recomputes from the start's
      own day has the very same slot, and its first candidate passes both table constraints. */
  ghost predicate CanBeBooked(db: Tables, service: ServiceInfo, later: int, s: Slot) {
    && Truncate(s.startsAt) == s.startsAt
    && DayRequest(db, service, Truncate(s.startsAt), later, true).CorrectSlot(s)
    && s.resources != []
    && MayInsert(db.bookings, FirstRow(service, s))
  }

  /** Offered means bookable, with the tables unchanged, for a start that still clears the lead
      time when it is booked. */
  lemma OfferedMeansBookable(db: Tables, service: ServiceInfo, date: int, now: int, later: int, s: Slot)
    requires ValidTables(db)
    requires var d := db.location.dayOf(date);
             DayHolds(db.location, d) && DayFinds(db.location, d) && DayReturns(db.location, d)
    requires DayRequest(db, service, date, now, false).CorrectSlot(s)
    requires later + service.minLeadMinutes * MINUTE <= s.startsAt
    ensures CanBeBooked(db, service, later, s)
  {
    var p := DayRequest(db, service, date, now, false);
    var r :| p.Free(s.startsAt, r);
    assert r in s.resources;
    FreeOnTheSecond(p, s.startsAt, r);
    OfferedIsFoundAgain(db, service, date, now, later, s);
    FirstCandidateFits(db, service, date, now, s);
  }

  lemma FirstCandidateFits(db: Tables, service: ServiceInfo, date: int, now: int, s: Slot)
    requires ValidTables(db) && DayHolds(db.location, db.location.dayOf(date))
    requires s.resources != [] && DayRequest(db, service, date, now, false).Free(s.startsAt, s.resources[0])
    ensures MayInsert(db.bookings, FirstRow(service, s))
  {
    var p, t, r := DayRequest(db, service, date, now, false), s.startsAt, s.resources[0];
    assert p.Free(t, r);
    var w :| w in p.windows && w.resource == r && p.OnGrid(w, t);
    var n := DayGrid(db, service, date, now, false, w, t);
    FreeCanBeInserted(db, service, date, now, false, t, r, FirstRow(service, s));
  }

  /** The same of the lists: what an ordinary day's browse list holds is in the list booking
      recomputes, and its first candidate can be inserted. */
  lemma OfferedIsListedAgain(db: Tables, service: ServiceInfo, date: int, now: int, later: int,
                             browse: seq<Slot>, s: Slot, full: seq<Slot>)
    requires ValidTables(db) && OrdinaryDay(db.location, db.location.dayOf(date))
    requires IsSlotList(DayRequest(db, service, date, now, false), browse) && s in browse
    requires later + service.minLeadMinutes * MINUTE <= s.startsAt
    requires IsSlotList(DayRequest(db, service, Truncate(s.startsAt), later, true), full)
    ensures s in full && s.resources != [] && MayInsert(db.bookings, FirstRow(service, s))
  {
    OrdinaryDayIsKept(db.location, db.location.dayOf(date));
    OfferedMeansBookable(db, service, date, now, later, s);
  }

  /** `startsAt.Truncate(time.Second)`. */
  function Truncate(t: int): (r: int)
    ensures r <= t < r + SECOND && r % SECOND == 0
    ensures t % SECOND == 0 ==> r == t
  {
    t - t % SECOND
  }
}
