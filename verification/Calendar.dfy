/** Instants and provider-local days.

    An instant is an integer count of nanoseconds. A zone is what `time.Time.In(location)`
    and `time.Date(..., location)` compute: the local day and minute an instant falls in,
    and the instant a local day and minute name. Days are numbered from 1970-01-01. */
module Calendar {
  const SECOND: int := 1_000_000_000
  const MINUTE: int := 60_000_000_000
  const MINUTES_PER_DAY: int := 1440
  // RFC 8536, section 3.2, keeps UTC offsets strictly inside (-25 h, 26 h).
  const MAX_OFFSET: int := 93_600_000_000_000

  datatype Location = Location(
    dayOf: int -> int,       // instant to local day
    clockOf: int -> int,     // instant to local minute of the day
    at: (int, int) -> int    // local day and minute, not necessarily in 0..1439, to instant
  )

  // `location == nil` in a SlotRequest means UTC.
  const UTC: Location := Location(
    t => (t / MINUTE) / MINUTES_PER_DAY,
    t => (t / MINUTE) % MINUTES_PER_DAY,
    (day, minute) => (day * MINUTES_PER_DAY + minute) * MINUTE)

  /** Facts true of every zone: offsets are bounded whole seconds, minute 1440 is normalized to
      minute 0 of the next day, and a local time that some instant shows names an instant that
      shows it. */
  ghost predicate Zone(loc: Location) {
    && (forall d, m :: -MAX_OFFSET <= loc.at(d, m) - (d * MINUTES_PER_DAY + m) * MINUTE <= MAX_OFFSET)
    && (forall d, m :: loc.at(d, m) % SECOND == 0)
    && (forall d :: loc.at(d, MINUTES_PER_DAY) == loc.at(d + 1, 0))
    && (forall t :: Coherent(loc, t))
  }

  ghost predicate Coherent(loc: Location, t: int) {
    var d, m := loc.dayOf(t), loc.clockOf(t);
    0 <= m < MINUTES_PER_DAY && loc.dayOf(loc.at(d, m)) == d && loc.clockOf(loc.at(d, m)) == m
  }

  /** Growing minute counts never name falling instants. A skipped hour breaks this: the minutes
      in it are read with one of the two offsets involved, and `time.Date` does not say which. */
  ghost predicate OrderPreserving(loc: Location, d: int) {
    forall m, n :: m <= n ==> loc.at(d, m) <= loc.at(d, n)
  }

  /** The same for the minutes of one window, from its opening to its closing instant. */
  ghost predicate InOrder(loc: Location, d: int, opens: int, closes: int) {
    forall m, n | opens <= m <= n && loc.at(d, n) < loc.at(d, closes) :: loc.at(d, m) <= loc.at(d, n)
  }

  /** The day is exactly [at(d,0), at(d+1,0)), and the wall clock its first instant shows comes
      no earlier than midnight on the next day. The clock may be set at any hour during the
      day, and midnight itself may be skipped forward. */
  ghost predicate OrdinaryDay(loc: Location, d: int) {
    && loc.dayOf(loc.at(d, 0)) == d
    && loc.at(d + 1, 0) <= loc.at(d + 1, loc.clockOf(loc.at(d, 0)))
    && (forall m | 0 <= m <= MINUTES_PER_DAY :: loc.at(d, 0) <= loc.at(d, m) <= loc.at(d + 1, 0))
    && (forall t | loc.at(d, 0) <= t < loc.at(d + 1, 0) :: loc.dayOf(t) == d)
  }

  /** `t.AddDate(0, 0, 1)`: the same wall clock on the next local day. */
  function NextDay(loc: Location, t: int): int {
    loc.at(loc.dayOf(t) + 1, loc.clockOf(t))
  }

  // 1970-01-01 was a Thursday; 0 is Sunday.
  function Weekday(day: int): (w: int)
    ensures 0 <= w <= 6
  {
    (day + 4) % 7
  }

  /** Day 0 is a Thursday, and the weekday advances by one each day, from Saturday to Sunday. */
  lemma WeekdayAdvances(day: int)
    ensures Weekday(0) == 4
    ensures Weekday(day + 1) == if Weekday(day) == 6 then 0 else Weekday(day) + 1
  {
  }

  /** The hypotheses about zones are met: UTC meets all of them on every day. */
  lemma UtcIsAZone(d: int)
    ensures Zone(UTC) && OrdinaryDay(UTC, d) && OrderPreserving(UTC, d)
  {
    forall e: int, m: int ensures UTC.at(e, m) % SECOND == 0 {
      MinutesAreSeconds(e * MINUTES_PER_DAY + m);
    }
    forall t: int ensures Coherent(UTC, t) {
      MinuteReadsBack(t / MINUTE);
    }
    forall t: int | UTC.at(d, 0) <= t < UTC.at(d + 1, 0) ensures UTC.dayOf(t) == d {
    }
    MinuteReadsBack(d * MINUTES_PER_DAY);
  }

  lemma MinuteReadsBack(x: int)
    ensures (x / MINUTES_PER_DAY) * MINUTES_PER_DAY + x % MINUTES_PER_DAY == x
    ensures (x * MINUTE) / MINUTE == x
  {
  }

  // --- a skipped hour -------------------------------------------------------

  function LocalMinute(g: int, t: int): int {
    t / MINUTE + if t < g * MINUTE then 0 else 60
  }

  /** UTC until minute g, when clocks go forward an hour. The local minutes g to g + 59, which no
      instant shows, are read with the new offset. */
  function SpringForward(g: int): Location {
    Location(
      t => LocalMinute(g, t) / MINUTES_PER_DAY,
      t => LocalMinute(g, t) % MINUTES_PER_DAY,
      (day, minute) =>
        var x := day * MINUTES_PER_DAY + minute;
        (if x < g then x else x - 60) * MINUTE)
  }

  lemma SpringForwardIsAZone(g: int)
    ensures Zone(SpringForward(g))
  {
    var loc := SpringForward(g);
    forall d: int, m: int
      ensures loc.at(d, m) % SECOND == 0
      ensures -MAX_OFFSET <= loc.at(d, m) - (d * MINUTES_PER_DAY + m) * MINUTE <= MAX_OFFSET
    {
      SpringForwardAt(g, d, m);
    }
    forall t: int ensures Coherent(loc, t) {
      SpringForwardIsCoherent(g, t);
    }
    forall d: int ensures loc.at(d, MINUTES_PER_DAY) == loc.at(d + 1, 0) {
      assert d * MINUTES_PER_DAY + MINUTES_PER_DAY == (d + 1) * MINUTES_PER_DAY + 0;
    }
  }

  lemma MinutesAreSeconds(x: int)
    ensures (x * MINUTE) % SECOND == 0
  {
    assert x * MINUTE == SECOND * (60 * x);
  }

  lemma SpringForwardAt(g: int, d: int, m: int)
    ensures var t := SpringForward(g).at(d, m);
            t % SECOND == 0 && -MAX_OFFSET <= t - (d * MINUTES_PER_DAY + m) * MINUTE <= MAX_OFFSET
  {
    var x := d * MINUTES_PER_DAY + m;
    MinutesAreSeconds(if x < g then x else x - 60);
  }

  lemma SpringForwardIsCoherent(g: int, t: int)
    ensures Coherent(SpringForward(g), t)
  {
    var loc, x := SpringForward(g), LocalMinute(g, t);
    MinuteReadsBack(x);
    assert loc.at(loc.dayOf(t), loc.clockOf(t)) == (if x < g then x else x - 60) * MINUTE;
    MinuteReadsBack(if x < g then x else x - 60);
  }

  // --- Go's fixed-width integers --------------------------------------------

  const MAX_INT32: int := 0x7FFF_FFFF
  const MIN_INT32: int := -0x8000_0000

  /** The value an `int32` expression leaves after overflow. */
  function Wrap32(x: int): (r: int)
    ensures MIN_INT32 <= r <= MAX_INT32
    ensures MIN_INT32 <= x <= MAX_INT32 ==> r == x
  {
    (x + 0x8000_0000) % 0x1_0000_0000 - 0x8000_0000
  }

  /** The value an `int64` expression leaves after overflow. */
  function Wrap64(x: int): (r: int)
    ensures -0x8000_0000_0000_0000 <= r < 0x8000_0000_0000_0000
    ensures -0x8000_0000_0000_0000 <= x < 0x8000_0000_0000_0000 ==> r == x
  {
    (x + 0x8000_0000_0000_0000) % 0x1_0000_0000_0000_0000 - 0x8000_0000_0000_0000
  }

  /** Overflow in a running sum is absorbed by a last wrap of the exact sum. */
  lemma WrapAdd(x: int, y: int)
    ensures Wrap32(Wrap32(x) + y) == Wrap32(x + y)
  {
  }
}
