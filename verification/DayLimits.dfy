/** Exactly which days availability and booking can be relied on, for every table: the zone alone
    decides. */
module DayLimits {
  import opened Wrappers
  import opened Calendar
  import opened Windows
  import opened Slots
  import opened Lifecycle
  import opened Bookings
  import opened Scheduler

  // --- the three promises, over every table with this zone ---------------------------

  /** Availability knows of every booking that matters to a start on its grid. */
  ghost predicate Knows(db: Tables, service: ServiceInfo, date: int, now: int, forBooking: bool) {
    var req := DayRequest(db, service, date, now, forBooking);
    forall w, t | w in req.windows && req.total > 0 && req.OnGrid(w, t) ::
      req.IsBusy(w.resource, t) <==> Occupied(db.bookings, w.resource, t, t + req.total)
  }

  ghost predicate QueryIsLossless(loc: Location, date: int) {
    forall db: Tables, service, now, forBooking | db.location == loc && ValidTables(db) ::
      Knows(db, service, date, now, forBooking)
  }

  /** s is what browsing offers for the date, and it still clears the lead time later on. */
  ghost predicate Offered(db: Tables, service: ServiceInfo, date: int, now: int, later: int, s: Slot) {
    && ValidTables(db) && DayRequest(db, service, date, now, false).CorrectSlot(s)
    && later + service.minLeadMinutes * MINUTE <= s.startsAt
  }

  ghost predicate FoundAgain(db: Tables, service: ServiceInfo, later: int, s: Slot) {
    DayRequest(db, service, s.startsAt, later, true).Open(s.startsAt)
  }

  ghost predicate StartsAreFoundAgain(loc: Location, date: int) {
    forall db: Tables, service, now, later, s | db.location == loc && Offered(db, service, date, now, later, s) ::
      FoundAgain(db, service, later, s)
  }

  ghost predicate OffersAreBookable(loc: Location, date: int) {
    forall db: Tables, service, now, later, s | db.location == loc && Offered(db, service, date, now, later, s) ::
      CanBeBooked(db, service, later, s)
  }

  // --- a table for any appointment a day can offer ------------------------------------

  /** Two resources, open from o to c on one weekday, with a step that leads from o to n. */
  function Shop(loc: Location, day: int, o: int, c: int, n: int,
                exceptions: seq<(int, ExceptionRule)>, bookings: seq<Row>): Tables {
    Tables(loc, (if n > o then n - o else 1) * MINUTE, ["a", "b"],
           [HoursRule(None, Weekday(day), o, c)], exceptions, bookings)
  }

  lemma ShopWindows(db: Tables, day: int, o: int, c: int, date: int)
    requires Shown(db.location, db.location.dayOf(date)) == day && forall e | e in db.exceptions :: e.0 != day
    requires db.resources == ["a", "b"] && db.hours == [HoursRule(None, Weekday(day), o, c)]
    ensures DayWindows(db, date) == [DayWindow("a", o, c), DayWindow("b", o, c)]
  {
    NoneThatDay(db.exceptions, day);
    BothOpen("a", "b", Weekday(day), o, c);
  }

  lemma BothOpen(r: Id, q: Id, weekday: int, o: int, c: int)
    ensures AllWindows([r, q], [HoursRule(None, weekday, o, c)], [], weekday)
         == [DayWindow(r, o, c), DayWindow(q, o, c)]
  {
    TwoResources(r, q, [HoursRule(None, weekday, o, c)], [], weekday);
    OneRule(r, weekday, o, c);
    OneRule(q, weekday, o, c);
  }

  lemma BothClosed(r: Id, q: Id, hours: seq<HoursRule>, weekday: int)
    ensures AllWindows([r, q], hours, [ExceptionRule(None, true, None, None)], weekday) == []
  {
    TwoResources(r, q, hours, [ExceptionRule(None, true, None, None)], weekday);
    Closure(r, hours, weekday);
    Closure(q, hours, weekday);
  }

  lemma OneRule(r: Id, weekday: int, o: int, c: int)
    ensures WindowsFor(r, [HoursRule(None, weekday, o, c)], [], weekday) == [DayWindow(r, o, c)]
  {
    var rule := HoursRule(None, weekday, o, c);
    RulesOfOne(rule, Some(r));
    RulesOfOne(rule, None);
  }

  lemma RulesOfOne(rule: HoursRule, scope: Option<Id>)
    ensures RulesFor([rule], rule.weekday, scope) == if rule.resource == scope then [rule] else []
  {
    assert [rule][..0] == [];
    assert RulesFor([rule][..0], rule.weekday, scope) == [];
  }

  lemma Closure(r: Id, hours: seq<HoursRule>, weekday: int)
    ensures WindowsFor(r, hours, [ExceptionRule(None, true, None, None)], weekday) == []
  {
    var closed := [ExceptionRule(None, true, None, None)];
    assert LastException(closed[..0], Some(r)) == None;
    assert LastException(closed, Some(r)) == None && LastException(closed, None) == Some(closed[0]);
  }

  lemma TwoResources(r: Id, q: Id, hours: seq<HoursRule>, exceptions: seq<ExceptionRule>, weekday: int)
    ensures AllWindows([r, q], hours, exceptions, weekday)
         == WindowsFor(r, hours, exceptions, weekday) + WindowsFor(q, hours, exceptions, weekday)
  {
    assert [r, q][..1] == [r] && [r][..0] == [];
    assert AllWindows([r], hours, exceptions, weekday) == WindowsFor(r, hours, exceptions, weekday);
  }

  lemma {:induction false} NoneThatDay(exceptions: seq<(int, ExceptionRule)>, day: int)
    requires forall e | e in exceptions :: e.0 != day
    ensures ExceptionsOn(exceptions, day) == []
  {
    if exceptions != [] { NoneThatDay(exceptions[1..], day); }
  }

  lemma StepReaches(req: SlotRequest, w: DayWindow, n: int)
    requires Offerable(req.Zone(), req.Day(), w.opens, w.closes, n, req.total)
    requires req.step == (if n > w.opens then n - w.opens else 1) * MINUTE && req.earliest <= req.At(n)
    ensures req.OnGrid(w, req.At(n))
  {
    var k := if n > w.opens then 1 else 0;
    assert req.Stride() == if n > w.opens then n - w.opens else 1;
    assert req.GridStart(w, 0) == req.At(w.opens) && req.GridStart(w, k) == req.At(n);
    assert req.Fits(w, 0) && req.Fits(w, k);
    assert req.GridPoint(w, k, req.At(n));
  }

  function Of(quoted: int, buffer: int): ServiceInfo {
    ServiceInfo(true, true, quoted, buffer, 0)
  }

  /** At minute n the shop offers whichever of its two resources is not known to be busy. */
  lemma ShopOffers(db: Tables, day: int, o: int, c: int, n: int, exceptions: seq<(int, ExceptionRule)>,
                   bookings: seq<Row>, service: ServiceInfo, date: int, now: int, forBooking: bool)
    requires db == Shop(db.location, day, o, c, n, exceptions, bookings) && forall e | e in exceptions :: e.0 != day
    requires Shown(db.location, db.location.dayOf(date)) == day
    requires Offerable(db.location, day, o, c, n, TotalDuration(service.quotedMinutes, service.bufferMinutes))
    requires now + service.minLeadMinutes * MINUTE <= db.location.at(day, n)
    ensures var req, t := DayRequest(db, service, date, now, forBooking), db.location.at(day, n);
            && (forall r :: req.Free(t, r) <==> (r == "a" || r == "b") && !req.IsBusy(r, t))
            && DayWindow("a", o, c) in req.windows && req.OnGrid(DayWindow("a", o, c), t)
  {
    var req, t := DayRequest(db, service, date, now, forBooking), db.location.at(day, n);
    ShopWindows(db, day, o, c, date);
    StepReaches(req, DayWindow("a", o, c), n);
    StepReaches(req, DayWindow("b", o, c), n);
    assert req.windows[0] in req.windows && req.windows[1] in req.windows;
  }

  // --- a booking that a query misses ------------------------------------------------------

  /** Part of an appointment that the query made for day d does not cover. */
  function Missed(loc: Location, d: int, t: int, total: int): Row
    requires !Spans(loc, d, t, total) && total > 0
  {
    var from, to := loc.at(d, 0), NextDay(loc, loc.at(d, 0));
    if t < from then Row("a", t, t + 1, Confirmed, None)
    else Row("a", if t < to then to else t, t + total, Confirmed, None)
  }

  lemma MissedFacts(loc: Location, d: int, t: int, total: int)
    requires !Spans(loc, d, t, total) && total > 0
    ensures var row := Missed(loc, d, t, total);
            && row.Sound() && row.Active() && row.Meets(t, t + total) && ValidTable([row])
            && Occupied([row], "a", t, t + total) && !Occupied([row], "b", t, t + total)
            && ListBusyIntervals([row], ["a", "b"], loc.at(d, 0), NextDay(loc, loc.at(d, 0))) == []
  {
    var row := Missed(loc, d, t, total);
    assert [row][..0] == [] && [row][0] == row;
    assert !BusyRow(row, ["a", "b"], loc.at(d, 0), NextDay(loc, loc.at(d, 0)));
    assert row.Meets(t, t + total) && [row][0].Active();
  }

  // --- the query ----------------------------------------------------------------------------

  /** For every table, reading one day's bookings loses nothing if and only if the day holds. */
  lemma QueryIsLosslessExactly(loc: Location, date: int)
    requires Zone(loc)
    ensures DayHolds(loc, loc.dayOf(date)) <==> QueryIsLossless(loc, date)
  {
    var d := loc.dayOf(date);
    if DayHolds(loc, d) {
      forall db: Tables, service, now, forBooking | db.location == loc && ValidTables(db)
        ensures Knows(db, service, date, now, forBooking)
      {
        HeldDayKnows(db, service, date, now, forBooking);
      }
    } else {
      var o, c, n, total :| Offerable(loc, Shown(loc, d), o, c, n, total) && IsDuration(total)
                            && !Spans(loc, d, loc.at(Shown(loc, d), n), total);
      UnknownBooking(loc, date, o, c, n, total);
    }
  }

  lemma HeldDayKnows(db: Tables, service: ServiceInfo, date: int, now: int, forBooking: bool)
    requires ValidTables(db) && DayHolds(db.location, db.location.dayOf(date))
    ensures Knows(db, service, date, now, forBooking)
  {
    var req := DayRequest(db, service, date, now, forBooking);
    forall w, t | w in req.windows && req.total > 0 && req.OnGrid(w, t)
      ensures req.IsBusy(w.resource, t) <==> Occupied(db.bookings, w.resource, t, t + req.total)
    {
      var n := DayGrid(db, service, date, now, forBooking, w, t);
      WindowsStayInDay(db, date, w);
      BusyQueryIsLossless(db, service, date, now, forBooking, w.resource, t);
    }
  }

  /** The shop with "a" booked where the query made for day d does not look. */
  lemma HalfBookedShop(loc: Location, day: int, o: int, c: int, n: int, d: int, total: int) returns (db: Tables)
    requires Zone(loc) && Offerable(loc, day, o, c, n, total) && !Spans(loc, d, loc.at(day, n), total)
    ensures db == Shop(loc, day, o, c, n, [], db.bookings) && ValidTables(db)
    ensures var t := loc.at(day, n);
            Occupied(db.bookings, "a", t, t + total) && !Occupied(db.bookings, "b", t, t + total)
    ensures ListBusyIntervals(db.bookings, ["a", "b"], loc.at(d, 0), NextDay(loc, loc.at(d, 0))) == []
  {
    MissedFacts(loc, d, loc.at(day, n), total);
    db := Shop(loc, day, o, c, n, [], [Missed(loc, d, loc.at(day, n), total)]);
  }

  /** The shop with a booking of "a" that the day's query misses: both resources look free. */
  lemma MissedLooksFree(loc: Location, date: int, o: int, c: int, n: int, quoted: int, buffer: int) returns (db: Tables)
    requires Zone(loc)
    requires var day, total := Shown(loc, loc.dayOf(date)), TotalDuration(quoted, buffer);
             Offerable(loc, day, o, c, n, total) && !Spans(loc, loc.dayOf(date), loc.at(day, n), total)
    ensures db.location == loc && ValidTables(db)
    ensures var day, total := Shown(loc, loc.dayOf(date)), TotalDuration(quoted, buffer);
            var req, t := DayRequest(db, Of(quoted, buffer), date, loc.at(day, n), false), loc.at(day, n);
            && (forall r :: req.Free(t, r) <==> r == "a" || r == "b")
            && DayWindow("a", o, c) in req.windows && req.OnGrid(DayWindow("a", o, c), t)
            && Occupied(db.bookings, "a", t, t + total)
  {
    var day, t := Shown(loc, loc.dayOf(date)), loc.at(Shown(loc, loc.dayOf(date)), n);
    db := HalfBookedShop(loc, day, o, c, n, loc.dayOf(date), TotalDuration(quoted, buffer));
    ShopOffers(db, day, o, c, n, [], db.bookings, Of(quoted, buffer), date, t, false);
    assert DayRequest(db, Of(quoted, buffer), date, t, false).busy == [];
  }

  lemma UnknownBooking(loc: Location, date: int, o: int, c: int, n: int, total: int)
    requires Zone(loc)
    requires IsDuration(total)
    requires var day := Shown(loc, loc.dayOf(date));
             Offerable(loc, day, o, c, n, total) && !Spans(loc, loc.dayOf(date), loc.at(day, n), total)
    ensures !QueryIsLossless(loc, date)
  {
    var quoted, buffer :| total == TotalDuration(quoted, buffer);
    var db := MissedLooksFree(loc, date, o, c, n, quoted, buffer);
    var t := loc.at(Shown(loc, loc.dayOf(date)), n);
    assert DayRequest(db, Of(quoted, buffer), date, t, false).Free(t, "a");
    assert !Knows(db, Of(quoted, buffer), date, t, false);
  }

  // --- found again --------------------------------------------------------------------------

  /** For every table, offered starts are found again when the day is recomputed from them if and
      only if every start the day can offer leads back to the same hours. */
  lemma StartsAreFoundAgainExactly(loc: Location, date: int)
    requires Zone(loc)
    ensures DayFinds(loc, loc.dayOf(date)) <==> StartsAreFoundAgain(loc, date)
  {
    var d := loc.dayOf(date);
    if DayFinds(loc, d) {
      forall db: Tables, service, now, later, s | db.location == loc && Offered(db, service, date, now, later, s)
        ensures FoundAgain(db, service, later, s)
      {
        FoundOnTheSameHours(db, service, date, now, later, s);
      }
    } else {
      var o, c, n, total :| Offerable(loc, Shown(loc, d), o, c, n, total) && IsDuration(total)
                            && Shown(loc, loc.dayOf(loc.at(Shown(loc, d), n))) != Shown(loc, d);
      LostStart(loc, date, o, c, n, total);
    }
  }

  lemma FoundOnTheSameHours(db: Tables, service: ServiceInfo, date: int, now: int, later: int, s: Slot)
    requires Offered(db, service, date, now, later, s) && DayFinds(db.location, db.location.dayOf(date))
    ensures FoundAgain(db, service, later, s)
  {
    var t := s.startsAt;
    var p, q := DayRequest(db, service, date, now, false), DayRequest(db, service, t, later, true);
    var r :| p.Free(t, r);
    var w :| w in p.windows && w.resource == r && p.OnGrid(w, t);
    var n := DayGrid(db, service, date, now, false, w, t);
    assert Shown(db.location, db.location.dayOf(t)) == Shown(db.location, db.location.dayOf(date));
    assert q.windows == p.windows;
    SameDayGrid(p, q, w, t);
  }

  lemma BothAreOffered(req: SlotRequest, t: int)
    requires !req.includeFullyBooked && forall r :: req.Free(t, r) <==> r == "a" || r == "b"
    ensures req.CorrectSlot(Slot(t, ["a", "b"])) && req.earliest <= t
  {
    assert req.Free(t, "a");
    FreeIsOpenAndLate(req, t, "a");
  }

  lemma OneIsOffered(req: SlotRequest, t: int)
    requires !req.includeFullyBooked && forall r :: req.Free(t, r) <==> r == "b"
    ensures req.CorrectSlot(Slot(t, ["b"])) && req.earliest <= t
  {
    assert req.Free(t, "b");
    FreeIsOpenAndLate(req, t, "b");
  }

  /** The shop without bookings, closed on the day the start leads to. */
  function ClosedShop(loc: Location, date: int, o: int, c: int, n: int): Tables {
    var day := Shown(loc, loc.dayOf(date));
    var closed := (Shown(loc, loc.dayOf(loc.at(day, n))), ExceptionRule(None, true, None, None));
    Shop(loc, day, o, c, n, [closed], [])
  }

  lemma ClosedShopOffers(loc: Location, date: int, o: int, c: int, n: int, service: ServiceInfo)
    requires Zone(loc) && service.minLeadMinutes == 0
    requires var day, total := Shown(loc, loc.dayOf(date)), TotalDuration(service.quotedMinutes, service.bufferMinutes);
             Offerable(loc, day, o, c, n, total) && Shown(loc, loc.dayOf(loc.at(day, n))) != day
    ensures var db, t := ClosedShop(loc, date, o, c, n), loc.at(Shown(loc, loc.dayOf(date)), n);
            ValidTables(db) && forall r :: DayRequest(db, service, date, t, false).Free(t, r) <==> r == "a" || r == "b"
  {
    var db, day := ClosedShop(loc, date, o, c, n), Shown(loc, loc.dayOf(date));
    ShopOffers(db, day, o, c, n, db.exceptions, [], service, date, loc.at(day, n), false);
    assert DayRequest(db, service, date, loc.at(day, n), false).busy == [];
  }

  lemma LostStart(loc: Location, date: int, o: int, c: int, n: int, total: int)
    requires Zone(loc)
    requires IsDuration(total)
    requires var day := Shown(loc, loc.dayOf(date));
             Offerable(loc, day, o, c, n, total) && Shown(loc, loc.dayOf(loc.at(day, n))) != day
    ensures !StartsAreFoundAgain(loc, date)
  {
    var quoted, buffer :| total == TotalDuration(quoted, buffer);
    var t, s := loc.at(Shown(loc, loc.dayOf(date)), n), Slot(loc.at(Shown(loc, loc.dayOf(date)), n), ["a", "b"]);
    var db, service := ClosedShop(loc, date, o, c, n), Of(quoted, buffer);
    ClosedShopOffers(loc, date, o, c, n, service);
    BothAreOffered(DayRequest(db, service, date, t, false), t);
    ClosedElsewhere(db, t);
    assert Offered(db, service, date, t, t, s) && !FoundAgain(db, service, t, s);
  }

  lemma ClosedElsewhere(db: Tables, t: int)
    requires db.exceptions == [(Shown(db.location, db.location.dayOf(t)), ExceptionRule(None, true, None, None))]
    requires db.resources == ["a", "b"]
    ensures DayWindows(db, t) == []
  {
    var day := Shown(db.location, db.location.dayOf(t));
    var closed := ExceptionRule(None, true, None, None);
    assert ExceptionsOn(db.exceptions[1..], day) == [];
    assert ExceptionsOn(db.exceptions, day) == [closed];
    BothClosed("a", "b", db.hours, Weekday(day));
  }

  // --- offered means bookable -----------------------------------------------------------------

  /** For every table, what browsing offers for the date can be booked if and only if the zone
      keeps the day: its query covers what it offers, its starts lead back to its hours, and the
      query made on the way back covers them too. */
  lemma OffersAreBookableExactly(loc: Location, date: int)
    requires Zone(loc)
    ensures DayHolds(loc, loc.dayOf(date)) && DayFinds(loc, loc.dayOf(date)) && DayReturns(loc, loc.dayOf(date))
        <==> OffersAreBookable(loc, date)
  {
    var d := loc.dayOf(date);
    if !DayHolds(loc, d) {
      var o, c, n, total :| Offerable(loc, Shown(loc, d), o, c, n, total) && IsDuration(total)
                            && !Spans(loc, d, loc.at(Shown(loc, d), n), total);
      UnknownConflict(loc, date, o, c, n, total);
    } else if !DayFinds(loc, d) {
      NotFoundNotBookable(loc, date);
    } else if !DayReturns(loc, d) {
      var o, c, n, total :| Offerable(loc, Shown(loc, d), o, c, n, total) && IsDuration(total)
                            && !Spans(loc, loc.dayOf(loc.at(Shown(loc, d), n)), loc.at(Shown(loc, d), n), total);
      MissedOnReturn(loc, date, o, c, n, total);
    } else {
      forall db: Tables, service, now, later, s | db.location == loc && Offered(db, service, date, now, later, s)
        ensures CanBeBooked(db, service, later, s)
      {
        OfferedMeansBookable(db, service, date, now, later, s);
      }
    }
  }

  lemma OccupiedRefuses(rows: seq<Row>, row: Row)
    requires Occupied(rows, row.resource, row.start, row.end) && row.Active()
    ensures !MayInsert(rows, row)
  {
    var i :| 0 <= i < |rows| && rows[i].Active() && rows[i].resource == row.resource
             && rows[i].Meets(row.start, row.end);
    assert Conflict(rows[i], row);
  }

  /** A booking the day's query misses: browsing offers the time on "a" and the insert fails. */
  lemma UnknownConflict(loc: Location, date: int, o: int, c: int, n: int, total: int)
    requires Zone(loc)
    requires IsDuration(total)
    requires var day := Shown(loc, loc.dayOf(date));
             Offerable(loc, day, o, c, n, total) && !Spans(loc, loc.dayOf(date), loc.at(day, n), total)
    ensures !OffersAreBookable(loc, date)
  {
    var quoted, buffer :| total == TotalDuration(quoted, buffer);
    var db := MissedLooksFree(loc, date, o, c, n, quoted, buffer);
    var t := loc.at(Shown(loc, loc.dayOf(date)), n);
    BothAreOffered(DayRequest(db, Of(quoted, buffer), date, t, false), t);
    assert Offered(db, Of(quoted, buffer), date, t, t, Slot(t, ["a", "b"]));
    ConflictRefuses(db, Of(quoted, buffer), t, Slot(t, ["a", "b"]));
  }

  lemma ConflictRefuses(db: Tables, service: ServiceInfo, later: int, s: Slot)
    requires s.resources != []
    requires var total := TotalDuration(service.quotedMinutes, service.bufferMinutes);
             Occupied(db.bookings, s.resources[0], s.startsAt, s.startsAt + total)
    ensures !CanBeBooked(db, service, later, s)
  {
    OccupiedRefuses(db.bookings, FirstRow(service, s));
  }

  lemma BookableIsFound(db: Tables, service: ServiceInfo, later: int, s: Slot)
    requires CanBeBooked(db, service, later, s)
    ensures FoundAgain(db, service, later, s)
  {
  }

  lemma NotFoundNotBookable(loc: Location, date: int)
    requires Zone(loc) && !DayFinds(loc, loc.dayOf(date))
    ensures !OffersAreBookable(loc, date)
  {
    StartsAreFoundAgainExactly(loc, date);
    var db: Tables, service, now, later, s :|
      db.location == loc && Offered(db, service, date, now, later, s) && !FoundAgain(db, service, later, s);
    if CanBeBooked(db, service, later, s) { BookableIsFound(db, service, later, s); }
  }

  /** A booking of "a" that browsing sees and the way back misses: browsing offers "b" alone, and
      booking finds another slot. */
  lemma MissedOnReturn(loc: Location, date: int, o: int, c: int, n: int, total: int)
    requires Zone(loc) && DayHolds(loc, loc.dayOf(date)) && DayFinds(loc, loc.dayOf(date))
    requires IsDuration(total)
    requires var day := Shown(loc, loc.dayOf(date));
             Offerable(loc, day, o, c, n, total) && !Spans(loc, loc.dayOf(loc.at(day, n)), loc.at(day, n), total)
    ensures !OffersAreBookable(loc, date)
  {
    var quoted, buffer :| total == TotalDuration(quoted, buffer);
    var day := Shown(loc, loc.dayOf(date));
    var t := loc.at(day, n);
    var db := HalfBookedShop(loc, day, o, c, n, loc.dayOf(t), total);
    OffersOnlyB(db, day, o, c, n, Of(quoted, buffer), date);
    MissedByBooking(db, day, o, c, n, Of(quoted, buffer));
    NotTheSameSlot(db, Of(quoted, buffer), t, Slot(t, ["b"]));
  }

  lemma OffersOnlyB(db: Tables, day: int, o: int, c: int, n: int, service: ServiceInfo, date: int)
    requires var loc, total := db.location, TotalDuration(service.quotedMinutes, service.bufferMinutes);
             && db == Shop(loc, day, o, c, n, [], db.bookings) && day == Shown(loc, loc.dayOf(date))
             && Offerable(loc, day, o, c, n, total) && Spans(loc, loc.dayOf(date), loc.at(day, n), total)
             && Occupied(db.bookings, "a", loc.at(day, n), loc.at(day, n) + total)
             && !Occupied(db.bookings, "b", loc.at(day, n), loc.at(day, n) + total)
    requires service.minLeadMinutes == 0 && ValidTables(db)
    ensures var t := db.location.at(day, n); Offered(db, service, date, t, t, Slot(t, ["b"]))
  {
    var t := db.location.at(day, n);
    SeenByBrowsing(db, day, o, c, n, service, date);
    OneIsOffered(DayRequest(db, service, date, t, false), t);
  }

  lemma NotTheSameSlot(db: Tables, service: ServiceInfo, later: int, s: Slot)
    requires "a" !in s.resources && DayRequest(db, service, s.startsAt, later, true).Free(s.startsAt, "a")
    ensures !CanBeBooked(db, service, later, s)
  {
  }

  lemma SeenByBrowsing(db: Tables, day: int, o: int, c: int, n: int, service: ServiceInfo, date: int)
    requires var loc, total := db.location, TotalDuration(service.quotedMinutes, service.bufferMinutes);
             && db == Shop(loc, day, o, c, n, [], db.bookings) && day == Shown(loc, loc.dayOf(date))
             && Offerable(loc, day, o, c, n, total) && Spans(loc, loc.dayOf(date), loc.at(day, n), total)
             && Occupied(db.bookings, "a", loc.at(day, n), loc.at(day, n) + total)
             && !Occupied(db.bookings, "b", loc.at(day, n), loc.at(day, n) + total)
    requires service.minLeadMinutes == 0
    ensures var t := db.location.at(day, n);
            forall r :: DayRequest(db, service, date, t, false).Free(t, r) <==> r == "b"
  {
    var t := db.location.at(day, n);
    ShopOffers(db, day, o, c, n, [], db.bookings, service, date, t, false);
    assert db.resources[0] == "a" && db.resources[1] == "b";
    BusyQueryIsLossless(db, service, date, t, false, "a", t);
    BusyQueryIsLossless(db, service, date, t, false, "b", t);
  }

  lemma MissedByBooking(db: Tables, day: int, o: int, c: int, n: int, service: ServiceInfo)
    requires var loc, total := db.location, TotalDuration(service.quotedMinutes, service.bufferMinutes);
             var t := loc.at(day, n);
             && db == Shop(loc, day, o, c, n, [], db.bookings) && Shown(loc, loc.dayOf(t)) == day
             && Offerable(loc, day, o, c, n, total)
             && ListBusyIntervals(db.bookings, ["a", "b"], DayStart(db, t), NextDay(loc, DayStart(db, t))) == []
    requires service.minLeadMinutes == 0
    ensures var t := db.location.at(day, n); DayRequest(db, service, t, t, true).Free(t, "a")
  {
    var t := db.location.at(day, n);
    ShopOffers(db, day, o, c, n, [], db.bookings, service, t, t, true);
    assert DayRequest(db, service, t, t, true).busy == [];
  }
}
