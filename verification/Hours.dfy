/** internal/scheduling/service.go: replacing one scope's weekly opening hours. */
module Hours {
  import opened Wrappers
  import opened Sorting
  import opened Calendar
  import opened Windows
  import opened Cache

  datatype Span = Span(weekday: int, opens: int, closes: int)
  {
    // the checks ReplaceHours makes of each span before anything else
    predicate WellFormed() {
      0 <= weekday <= 6 && 0 <= opens <= MINUTES_PER_DAY && 0 <= closes <= MINUTES_PER_DAY && opens < closes
    }

    predicate Covers(day: int, minute: int) {
      weekday == day && opens <= minute < closes
    }
  }

  /** Two of the spans, at different positions, share a minute of some weekday. */
  ghost predicate ShareAMinute(spans: seq<Span>) {
    exists i, j, day, minute :: 0 <= i < j < |spans| && spans[i].Covers(day, minute) && spans[j].Covers(day, minute)
  }

  predicate OpensEarlier(a: Span, b: Span) {
    a.opens < b.opens
  }

  ghost predicate Disjoint(spans: seq<Span>) {
    forall i, j | 0 <= i < j < |spans| :: Apart(spans[i], spans[j])
  }

  predicate Apart(a: Span, b: Span) {
    a.weekday != b.weekday || a.closes <= b.opens || b.closes <= a.opens
  }

  lemma DisjointMeansNoSharedMinute(spans: seq<Span>)
    requires forall s | s in spans :: s.WellFormed()
    ensures Disjoint(spans) <==> !ShareAMinute(spans)
  {
    if !Disjoint(spans) {
      var i, j :| 0 <= i < j < |spans| && !Apart(spans[i], spans[j]);
      assert spans[i] in spans && spans[j] in spans;
      var minute := if spans[i].opens < spans[j].opens then spans[j].opens else spans[i].opens;
      assert spans[i].Covers(spans[i].weekday, minute) && spans[j].Covers(spans[i].weekday, minute);
    }
    if i, j, day, minute :| 0 <= i < j < |spans| && spans[i].Covers(day, minute) && spans[j].Covers(day, minute) {
      assert !Apart(spans[i], spans[j]);
    }
  }

  /** Pairwise separation is a property of the multiset: it survives any reordering. */
  lemma DisjointPermutes(a: seq<Span>, b: seq<Span>)
    requires multiset(a) == multiset(b) && Disjoint(a) && forall s | s in a :: s.WellFormed()
    ensures Disjoint(b)
  {
    SameMembers(a, b);
    assert NoDuplicates(a) by {
      forall i, j | 0 <= i < j < |a| ensures a[i] != a[j] { assert a[i] in a && Apart(a[i], a[j]); }
    }
    PermutationKeepsDistinct(a, b);
    forall i, j | 0 <= i < j < |b| ensures Apart(b[i], b[j]) {
      assert b[i] in a && b[j] in a && b[i] != b[j];
      var k :| 0 <= k < |a| && a[k] == b[i];
      var l :| 0 <= l < |a| && a[l] == b[j];
      assert k < l ==> Apart(a[k], a[l]);
      assert l < k ==> Apart(a[l], a[k]);
    }
  }

  ghost predicate AdjacentOk(day: seq<Span>) {
    forall i | 0 < i < |day| :: day[i - 1].closes <= day[i].opens
  }

  lemma {:induction false} ClosesBefore(day: seq<Span>, i: nat, j: nat)
    requires AdjacentOk(day) && i < j < |day| && forall s | s in day :: s.opens < s.closes
    ensures day[i].closes <= day[j].opens
  {
    if i < j - 1 {
      ClosesBefore(day, i, j - 1);
      assert day[j - 1] in day;
    }
  }

  /** Comparing neighbours is enough once a day is sorted by opening, however ties fall. */
  lemma AdjacentTestDecides(day: seq<Span>)
    requires Ordered(OpensEarlier, day) && forall s | s in day :: s.opens < s.closes
    requires forall i, j | 0 <= i < |day| && 0 <= j < |day| :: day[i].weekday == day[j].weekday
    ensures AdjacentOk(day) <==> Disjoint(day)
  {
    if AdjacentOk(day) {
      forall i, j | 0 <= i < j < |day| ensures Apart(day[i], day[j]) { ClosesBefore(day, i, j); }
    }
    if Disjoint(day) {
      forall i | 0 < i < |day| ensures day[i - 1].closes <= day[i].opens {
        assert Apart(day[i - 1], day[i]) && !OpensEarlier(day[i], day[i - 1]);
        assert day[i] in day && day[i - 1] in day;
      }
    }
  }

  /** The spans of one weekday, in order. */
  function OnDay(spans: seq<Span>, day: int): (r: seq<Span>)
    ensures forall s :: s in r <==> s in spans && s.weekday == day
  {
    if spans == [] then []
    else
      var last, init := spans[|spans| - 1], OnDay(spans[..|spans| - 1], day);
      assert forall s :: s in spans <==> s in spans[..|spans| - 1] || s == last;
      if last.weekday == day then init + [last] else init
  }

  ghost predicate EveryDayDisjoint(spans: seq<Span>) {
    forall day :: Disjoint(OnDay(spans, day))
  }

  lemma DisjointByDay(spans: seq<Span>)
    ensures Disjoint(spans) <==> EveryDayDisjoint(spans)
  {
    if Disjoint(spans) {
      forall day ensures Disjoint(OnDay(spans, day)) { DayOfDisjoint(spans, day); }
    }
    if EveryDayDisjoint(spans) { DisjointFromDays(spans); }
  }

  lemma {:induction false} DayOfDisjoint(spans: seq<Span>, day: int)
    requires Disjoint(spans)
    ensures Disjoint(OnDay(spans, day))
  {
    if spans != [] {
      var init, last := spans[..|spans| - 1], spans[|spans| - 1];
      assert spans == init + [last];
      DisjointSnoc(init, last);
      DayOfDisjoint(init, day);
      DaySnoc(init, last, day);
    }
  }

  lemma {:induction false} DisjointFromDays(spans: seq<Span>)
    requires EveryDayDisjoint(spans)
    ensures Disjoint(spans)
  {
    if spans != [] {
      var init, last := spans[..|spans| - 1], spans[|spans| - 1];
      assert spans == init + [last];
      forall day ensures Disjoint(OnDay(init, day)) {
        assert Disjoint(OnDay(spans, day));
        DaySnoc(init, last, day);
      }
      DisjointFromDays(init);
      assert Disjoint(OnDay(spans, last.weekday));
      DaySnoc(init, last, last.weekday);
      ApartOnDay(init, last);
      DisjointSnoc(init, last);
    }
  }

  lemma DaySnoc(init: seq<Span>, last: Span, day: int)
    ensures Disjoint(OnDay(init + [last], day)) <==>
            Disjoint(OnDay(init, day)) && (day == last.weekday ==> ApartFromAll(OnDay(init, day), last))
  {
    OnDaySnoc(init, last, day);
    DisjointSnoc(OnDay(init, day), last);
  }

  lemma ApartOnDay(spans: seq<Span>, s: Span)
    ensures ApartFromAll(spans, s) <==> ApartFromAll(OnDay(spans, s.weekday), s)
  {
  }

  lemma OnDaySnoc(init: seq<Span>, last: Span, day: int)
    ensures OnDay(init + [last], day) == if last.weekday == day then OnDay(init, day) + [last] else OnDay(init, day)
  {
    assert (init + [last])[..|init|] == init;
  }

  ghost predicate ApartFromAll(spans: seq<Span>, s: Span) {
    forall u | u in spans :: Apart(u, s)
  }

  lemma DisjointSnoc(spans: seq<Span>, s: Span)
    ensures Disjoint(spans + [s]) <==> Disjoint(spans) && ApartFromAll(spans, s)
  {
    var all := spans + [s];
    if Disjoint(all) {
      forall i, j | 0 <= i < j < |spans| ensures Apart(spans[i], spans[j]) { assert Apart(all[i], all[j]); }
      forall u | u in spans ensures Apart(u, s) {
        var i :| 0 <= i < |spans| && spans[i] == u;
        assert Apart(all[i], all[|spans|]);
      }
    }
  }

  lemma OpensIsStrictWeak()
    ensures StrictWeak(OpensEarlier)
  {
  }

  // --- assertNoOverlap -----------------------------------------------------------------

  method GroupByDay(spans: seq<Span>) returns (byDay: map<int, seq<Span>>)
    ensures forall day :: OnDay(spans, day) == if day in byDay then byDay[day] else []
  {
    byDay := map[];
    for i := 0 to |spans|
      invariant forall day :: OnDay(spans[..i], day) == if day in byDay then byDay[day] else []
    {
      assert spans[..i + 1][..i] == spans[..i];
      var span := spans[i];
      var before := if span.weekday in byDay then byDay[span.weekday] else [];
      byDay := byDay[span.weekday := before + [span]];
    }
    assert spans[..|spans|] == spans;
  }

  method DayIsOk(day: seq<Span>) returns (ok: bool)
    requires forall s | s in day :: s.WellFormed()
    requires forall i, j | 0 <= i < |day| && 0 <= j < |day| :: day[i].weekday == day[j].weekday
    ensures ok <==> Disjoint(day)
  {
    OpensIsStrictWeak();
    var sorted := SortSlice(OpensEarlier, day);
    SortedDay(day, sorted);
    if sorted == [] {
      return true;
    }
    for i := 1 to |sorted|
      invariant forall j | 0 < j < i && j < |sorted| :: sorted[j - 1].closes <= sorted[j].opens
    {
      if sorted[i].opens < sorted[i - 1].closes {
        return false;
      }
    }
    return true;
  }

  lemma SortedDay(day: seq<Span>, sorted: seq<Span>)
    requires forall s | s in day :: s.WellFormed()
    requires forall i, j | 0 <= i < |day| && 0 <= j < |day| :: day[i].weekday == day[j].weekday
    requires Ordered(OpensEarlier, sorted) && multiset(sorted) == multiset(day)
    ensures AdjacentOk(sorted) <==> Disjoint(day)
  {
    SameMembers(day, sorted);
    forall i, j | 0 <= i < |sorted| && 0 <= j < |sorted| ensures sorted[i].weekday == sorted[j].weekday {
      assert sorted[i] in day && sorted[j] in day;
    }
    AdjacentTestDecides(sorted);
    if Disjoint(sorted) { DisjointPermutes(sorted, day); }
    if Disjoint(day) { DisjointPermutes(day, sorted); }
  }

  /** Accepts exactly the weeks in which no two spans share a minute. */
  method AssertNoOverlap(spans: seq<Span>) returns (ok: bool)
    requires forall s | s in spans :: s.WellFormed()
    ensures ok <==> !ShareAMinute(spans)
  {
    DisjointMeansNoSharedMinute(spans);
    DisjointByDay(spans);
    var byDay := GroupByDay(spans);
    var pending := byDay.Keys;
    while pending != {}
      invariant pending <= byDay.Keys
      invariant forall day | day in byDay && day !in pending :: Disjoint(byDay[day])
      decreases pending
    {
      var day := Pick(pending);
      assert OnDay(spans, day) == byDay[day];
      var dayOk := DayIsOk(byDay[day]);
      if !dayOk {
        return false;
      }
      pending := pending - {day};
    }
    forall day ensures Disjoint(OnDay(spans, day)) {
      assert OnDay(spans, day) == if day in byDay then byDay[day] else [];
    }
    return true;
  }

  // --- ReplaceHours --------------------------------------------------------------------

  datatype HoursRow = HoursRow(provider: Id, rule: HoursRule)

  datatype HoursError = InvalidSpan | Overlapping | NotOwned | Database

  predicate InScope(row: HoursRow, provider: Id, resource: Option<Id>) {
    row.provider == provider && row.rule.resource == resource
  }

  function OutsideScope(rows: seq<HoursRow>, provider: Id, resource: Option<Id>): seq<HoursRow> {
    if rows == [] then []
    else
      var init := OutsideScope(rows[..|rows| - 1], provider, resource);
      var last := rows[|rows| - 1];
      if InScope(last, provider, resource) then init else init + [last]
  }

  function AsRows(spans: seq<Span>, provider: Id, resource: Option<Id>): (r: seq<HoursRow>)
    ensures |r| == |spans|
    ensures forall i | 0 <= i < |spans| ::
              r[i] == HoursRow(provider, HoursRule(resource, spans[i].weekday, spans[i].opens, spans[i].closes))
  {
    seq(|spans|, i requires 0 <= i < |spans| =>
          HoursRow(provider, HoursRule(resource, spans[i].weekday, spans[i].opens, spans[i].closes)))
  }

  ghost function RowOf(s: Span, provider: Id, resource: Option<Id>): HoursRow {
    HoursRow(provider, HoursRule(resource, s.weekday, s.opens, s.closes))
  }

  lemma {:induction false} OutsideMembers(rows: seq<HoursRow>, provider: Id, resource: Option<Id>, row: HoursRow)
    ensures row in OutsideScope(rows, provider, resource) <==>
            row in rows && !(row.provider == provider && row.rule.resource == resource)
  {
    if rows != [] {
      OutsideMembers(rows[..|rows| - 1], provider, resource, row);
      assert rows == rows[..|rows| - 1] + [rows[|rows| - 1]];
    }
  }

  lemma RowsAfter(before: seq<HoursRow>, week: seq<Span>, provider: Id, resource: Option<Id>)
    ensures forall row :: row in OutsideScope(before, provider, resource) + AsRows(week, provider, resource) <==>
              || (row in before && !(row.provider == provider && row.rule.resource == resource))
              || (exists s :: s in week && row == RowOf(s, provider, resource))
  {
    var outside, added := OutsideScope(before, provider, resource), AsRows(week, provider, resource);
    forall row ensures row in outside + added <==>
                  || (row in before && !(row.provider == provider && row.rule.resource == resource))
                  || (exists s :: s in week && row == RowOf(s, provider, resource))
    {
      OutsideMembers(before, provider, resource, row);
      if row in added {
        var i :| 0 <= i < |added| && added[i] == row;
        assert week[i] in week;
      }
      if s :| s in week && row == RowOf(s, provider, resource) {
        var i :| 0 <= i < |week| && week[i] == s;
        assert added[i] == row;
      }
    }
  }

  class HoursTable {
    var rows: seq<HoursRow>

    /** Validation first, then one transaction: `broken` is the insert the database fails, if
        any. Either the scope holds exactly the new week, every other scope is as it was and the
        provider's cached availability is gone, or nothing changed. */
    method ReplaceHours(cache: AvailabilityCache, provider: Id, resource: Option<Id>, week: seq<Span>, owned: bool,
                        broken: Option<nat>)
      returns (r: Result<seq<HoursRow>, HoursError>)
      requires cache.Valid()
      modifies this, cache
      ensures cache.Valid()
      ensures cache.history == old(cache.history) + if r.Success? then [Invalidate(provider)] else []
      ensures r == Failure(InvalidSpan) <==> exists s :: s in week && !s.WellFormed()
      ensures r == Failure(InvalidSpan) <==>
              exists s :: s in week && (s.weekday < 0 || s.weekday > 6 || s.opens < 0 || s.opens > 1440
                                        || s.closes < 0 || s.closes > 1440 || s.closes <= s.opens)
      ensures forall row :: row in rows <==>
                if r.Success? then
                  || (row in old(rows) && !(row.provider == provider && row.rule.resource == resource))
                  || (exists s :: s in week && row == RowOf(s, provider, resource))
                else row in old(rows)
      ensures r == Failure(Overlapping) <==> (forall s | s in week :: s.WellFormed()) && ShareAMinute(week)
      ensures r == Failure(NotOwned)
          <==> (forall s | s in week :: s.WellFormed()) && !ShareAMinute(week) && resource.Some? && !owned
      ensures r.Success?
          <==> (forall s | s in week :: s.WellFormed()) && !ShareAMinute(week) && (resource.Some? ==> owned)
                              && (broken.Some? ==> broken.value >= |week|)
      ensures r.Success? ==> r.value == AsRows(week, provider, resource)
                             && rows == OutsideScope(old(rows), provider, resource) + r.value
      ensures r.Failure? ==> rows == old(rows)
    {
      for i := 0 to |week|
        invariant forall s | s in week[..i] :: s.WellFormed()
      {
        if !week[i].WellFormed() {
          return Failure(InvalidSpan);
        }
      }
      assert week[..|week|] == week;
      var ok := AssertNoOverlap(week);
      if !ok {
        return Failure(Overlapping);
      }
      if resource.Some? && !owned {
        return Failure(NotOwned);
      }
      var before := rows;
      var written := [];
      rows := OutsideScope(rows, provider, resource);
      for i := 0 to |week|
        invariant written == AsRows(week, provider, resource)[..i]
        invariant rows == OutsideScope(before, provider, resource) + written
        invariant broken.Some? ==> broken.value >= i
        invariant cache.Valid() && cache.history == old(cache.history)
      {
        if broken == Some(i) {
          rows := before;   // rollback
          return Failure(Database);
        }
        var row := HoursRow(provider, HoursRule(resource, week[i].weekday, week[i].opens, week[i].closes));
        rows, written := rows + [row], written + [row];
      }
      cache.InvalidateProvider(provider);
      RowsAfter(before, week, provider, resource);
      return Success(written);
    }
  }

  /** What a committed week means to a later reader: one scope's rules are the new week's, every
      other scope's rules are what they were. */
  function RowsOf(rows: seq<HoursRow>, provider: Id, resource: Option<Id>): seq<HoursRow> {
    if rows == [] then []
    else
      var init := RowsOf(rows[..|rows| - 1], provider, resource);
      var last := rows[|rows| - 1];
      if InScope(last, provider, resource) then init + [last] else init
  }

  lemma {:induction false} RowsOfAppend(a: seq<HoursRow>, b: seq<HoursRow>, provider: Id, resource: Option<Id>)
    ensures RowsOf(a + b, provider, resource) == RowsOf(a, provider, resource) + RowsOf(b, provider, resource)
  {
    if b == [] {
      assert a + b == a;
    } else {
      var init, last := b[..|b| - 1], b[|b| - 1];
      RowsOfAppend(a, init, provider, resource);
      assert (a + b)[..|a + b| - 1] == a + init;
    }
  }

  lemma RowsOfSnoc(rows: seq<HoursRow>, last: HoursRow, p: Id, r: Option<Id>)
    ensures RowsOf(rows + [last], p, r) ==
            if InScope(last, p, r) then RowsOf(rows, p, r) + [last] else RowsOf(rows, p, r)
  {
    assert (rows + [last])[..|rows|] == rows;
  }

  lemma {:induction false} OutsideScopeKeeps(rows: seq<HoursRow>, provider: Id, resource: Option<Id>, p: Id,
                                             r: Option<Id>)
    ensures RowsOf(OutsideScope(rows, provider, resource), p, r)
         == if SameScope(provider, resource, p, r) then [] else RowsOf(rows, p, r)
  {
    if rows != [] {
      var init, last := rows[..|rows| - 1], rows[|rows| - 1];
      OutsideScopeKeeps(init, provider, resource, p, r);
      ScopeIsKey(last, provider, resource, p, r);
      RowsOfSnoc(OutsideScope(init, provider, resource), last, p, r);
    }
  }

  predicate SameScope(provider: Id, resource: Option<Id>, p: Id, r: Option<Id>) {
    provider == p && resource == r
  }

  lemma ScopeIsKey(row: HoursRow, provider: Id, resource: Option<Id>, p: Id, r: Option<Id>)
    ensures InScope(row, provider, resource) ==> (InScope(row, p, r) <==> SameScope(provider, resource, p, r))
    ensures SameScope(provider, resource, p, r) ==> (InScope(row, p, r) <==> InScope(row, provider, resource))
  {
  }

  lemma {:induction false} AllInScope(rows: seq<HoursRow>, provider: Id, resource: Option<Id>, p: Id, r: Option<Id>)
    requires forall i | 0 <= i < |rows| :: InScope(rows[i], provider, resource)
    ensures RowsOf(rows, p, r) == if SameScope(provider, resource, p, r) then rows else []
  {
    if rows != [] {
      var init, last := rows[..|rows| - 1], rows[|rows| - 1];
      AllInScope(init, provider, resource, p, r);
      ScopeIsKey(last, provider, resource, p, r);
      RowsOfSnoc(init, last, p, r);
      assert rows == init + [last];
    }
  }

  lemma ReplacedScopeOnly(before: seq<HoursRow>, week: seq<Span>, provider: Id, resource: Option<Id>, p: Id,
                          r: Option<Id>)
    ensures RowsOf(OutsideScope(before, provider, resource) + AsRows(week, provider, resource), p, r)
         == if SameScope(provider, resource, p, r) then AsRows(week, provider, resource) else RowsOf(before, p, r)
  {
    RowsOfAppend(OutsideScope(before, provider, resource), AsRows(week, provider, resource), p, r);
    OutsideScopeKeeps(before, provider, resource, p, r);
    AllInScope(AsRows(week, provider, resource), provider, resource, p, r);
  }
}
