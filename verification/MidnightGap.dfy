/** An input on which internal/scheduling/service.go offers a time that is already booked: clocks go
    forward at midnight, and the midnight that no clock shows is read as 23:00 of the day before. */
module MidnightGap {
  import opened Wrappers
  import opened Calendar
  import opened Windows
  import opened Slots
  import opened Lifecycle
  import opened Bookings
  import opened Scheduler

  function SkippedMidnight(): Location {
    SpringForward(0)
  }

  /** One resource open from 9 to 10 on Wednesdays, and booked for that hour of day -1. */
  function BookedWednesday(): Tables {
    Tables(SkippedMidnight(), 30 * MINUTE, ["a"], [HoursRule(Some("a"), 3, 540, 600)], [],
           [Row("a", -900 * MINUTE, -840 * MINUTE, Confirmed, None)])
  }

  lemma BookedWednesdayWindow()
    ensures DayStart(BookedWednesday(), 0) == -60 * MINUTE
    ensures DayWindow("a", 540, 600) in DayWindows(BookedWednesday(), 0)
  {
    var db := BookedWednesday();
    assert DayStart(db, 0) == -60 * MINUTE && db.location.dayOf(-60 * MINUTE) == -1 && Weekday(-1) == 3;
    assert RulesFor(db.hours, 3, Some("a")) == [db.hours[0]];
    WindowMembers(db.resources, db.hours, [], 3, DayWindow("a", 540, 600));
  }

  lemma BookedWednesdayIsUnseen()
    ensures ListBusyIntervals(BookedWednesday().bookings, ["a"], -60 * MINUTE,
                              NextDay(SkippedMidnight(), -60 * MINUTE)) == []
  {
    assert NextDay(SkippedMidnight(), -60 * MINUTE) == 1320 * MINUTE;
    assert !BusyRow(BookedWednesday().bookings[0], ["a"], -60 * MINUTE, 1320 * MINUTE);
  }

  lemma FirstGridPointIsFree(req: SlotRequest, w: DayWindow)
    requires w in req.windows && w.opens < w.closes && req.total > 0 && req.step > 0 && req.busy == []
    requires req.Fits(w, 0) && req.earliest <= req.At(w.opens)
    ensures req.Free(req.At(w.opens), w.resource)
  {
    assert req.GridStart(w, 0) == req.At(w.opens);
    assert req.GridPoint(w, 0, req.At(w.opens));
  }

  function BookedWednesdayRequest(): SlotRequest {
    DayRequest(BookedWednesday(), ServiceInfo(true, true, 60, 0, 0), 0, -10_000 * MINUTE, false)
  }

  /** What a request for day -1 of this zone looks like. */
  lemma SkippedMidnightTimes(req: SlotRequest)
    requires req.location == Some(SkippedMidnight()) && req.date == -60 * MINUTE
    ensures req.At(540) == -900 * MINUTE && req.At(600) == -840 * MINUTE
  {
    assert SkippedMidnight().dayOf(-60 * MINUTE) == -1;
    assert req.Day() == -1;
  }

  lemma BookedWednesdayOffer(req: SlotRequest, w: DayWindow)
    requires w == DayWindow("a", 540, 600) && w in req.windows && req.busy == []
    requires req.location == Some(SkippedMidnight()) && req.date == -60 * MINUTE
    requires req.total == 60 * MINUTE && req.step == 30 * MINUTE && req.earliest == -10_000 * MINUTE
    ensures req.Free(-900 * MINUTE, "a")
  {
    SkippedMidnightTimes(req);
    assert req.GridStart(w, 0) == req.At(540) && req.Fits(w, 0);
    FirstGridPointIsFree(req, w);
  }

  /** The day has to begin within itself: otherwise windows are taken from one day and bookings
      from the next, and a booked time comes out free. */
  lemma SkippedMidnightHidesABooking()
    ensures ValidTables(BookedWednesday())
    ensures BookedWednesdayRequest().Free(-900 * MINUTE, "a")
    ensures Occupied(BookedWednesday().bookings, "a", -900 * MINUTE, -840 * MINUTE)
  {
    SpringForwardIsAZone(0);
    BookedWednesdayWindow();
    BookedWednesdayIsUnseen();
    BookedWednesdayOffer(BookedWednesdayRequest(), DayWindow("a", 540, 600));
    assert BookedWednesday().bookings[0].Active();
  }

  /** The zone is one in which day 0 does not hold. */
  lemma SkippedMidnightDoesNotHold()
    ensures Zone(SkippedMidnight()) && SkippedMidnight().dayOf(0) == 0 && !DayHolds(SkippedMidnight(), 0)
  {
    var loc := SkippedMidnight();
    SpringForwardIsAZone(0);
    assert loc.at(0, 0) == -60 * MINUTE && Shown(loc, 0) == -1 && loc.at(-1, 540) == -900 * MINUTE;
    assert TotalDuration(60, 0) == 60 * MINUTE;
    assert Offerable(loc, -1, 540, 600, 540, 60 * MINUTE) && !Spans(loc, 0, loc.at(-1, 540), 60 * MINUTE);
  }
}
