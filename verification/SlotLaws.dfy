/** What the slot list of a request promises, for every zone, window set and busy set. */
module SlotLaws {
  import opened Wrappers
  import opened Sorting
  import opened Calendar
  import opened Windows
  import opened Slots

  /** The generator's result depends on its request alone: the specification admits one list. */
  lemma SlotListUnique(req: SlotRequest, a: seq<Slot>, b: seq<Slot>)
    requires IsSlotList(req, a) && IsSlotList(req, b)
    ensures a == b
  {
    AscendingUnique(Earlier, a, b);
  }

  /** Two requests that say the same things, whatever the order and repetition of their
      windows and busy intervals. */
  ghost predicate SameFacts(p: SlotRequest, q: SlotRequest) {
    && q == p.(windows := q.windows, busy := q.busy)
    && (forall w :: w in p.windows <==> w in q.windows)
    && (forall b :: b in p.busy <==> b in q.busy)
  }

  lemma SameFactsSameCorrectness(p: SlotRequest, q: SlotRequest)
    requires SameFacts(p, q)
    ensures forall t :: p.Open(t) <==> q.Open(t)
    ensures forall t, r :: p.Free(t, r) <==> q.Free(t, r)
    ensures forall s :: p.CorrectSlot(s) <==> q.CorrectSlot(s)
  {
    forall w, t ensures p.OnGrid(w, t) <==> q.OnGrid(w, t) {
      SameGrid(p, q, w, t);
      SameGrid(q, p, w, t);
    }
    forall t, r ensures p.Free(t, r) <==> q.Free(t, r) {
      assert p.IsBusy(r, t) <==> q.IsBusy(r, t);
    }
    forall s ensures p.CorrectSlot(s) <==> q.CorrectSlot(s) {
    }
  }

  lemma SameGrid(p: SlotRequest, q: SlotRequest, w: DayWindow, t: int)
    requires q == p.(windows := q.windows, busy := q.busy, includeFullyBooked := q.includeFullyBooked)
    ensures p.OnGrid(w, t) ==> q.OnGrid(w, t)
  {
    assert forall k :: p.GridStart(w, k) == q.GridStart(w, k);
    if p.OnGrid(w, t) {
      var k :| 0 <= k && p.GridPoint(w, k, t);
      forall j | 0 <= j <= k ensures q.Fits(w, j) { assert p.Fits(w, j); }
      assert q.GridPoint(w, k, t);
    }
  }

  /** Representation independence: reordering or repeating windows and busy intervals, and
      any map iteration order inside the generator, leave the list unchanged. */
  lemma RepresentationIndependence(p: SlotRequest, q: SlotRequest, a: seq<Slot>, b: seq<Slot>)
    requires SameFacts(p, q) && IsSlotList(p, a) && IsSlotList(q, b)
    ensures a == b
  {
    SameFactsSameCorrectness(p, q);
    SlotListUnique(p, a, b);
  }

  lemma PermutationsAgree(p: SlotRequest, q: SlotRequest, a: seq<Slot>, b: seq<Slot>)
    requires q == p.(windows := q.windows, busy := q.busy)
    requires multiset(p.windows) == multiset(q.windows) && multiset(p.busy) == multiset(q.busy)
    requires IsSlotList(p, a) && IsSlotList(q, b)
    ensures a == b
  {
    SameMembers(p.windows, q.windows);
    SameMembers(p.busy, q.busy);
    RepresentationIndependence(p, q, a, b);
  }

  // --- soundness and completeness of the grid ----------------------------------

  /** For every zone: an offered start is a grid point, late enough, and its whole interval
      lies inside a window of a resource that is free for it. */
  lemma OffersAreSound(req: SlotRequest, slots: seq<Slot>, s: Slot, r: Id)
    requires IsSlotList(req, slots) && s in slots && r in s.resources
    ensures exists w, k :: w in req.windows && w.resource == r && w.opens < w.closes && 0 <= k
                           && req.GridStart(w, k) == s.startsAt
                           && req.At(w.opens) <= s.startsAt && s.startsAt + req.total <= req.At(w.closes)
    ensures req.earliest <= s.startsAt
    ensures forall b | b in req.busy && b.resource == r :: !Overlaps(s.startsAt, s.startsAt + req.total, b)
  {
    assert req.Free(s.startsAt, r);
    var w :| w in req.windows && w.resource == r && req.OnGrid(w, s.startsAt);
    var k :| 0 <= k && req.GridPoint(w, k, s.startsAt);
    assert req.Fits(w, k);
    assert req.GridStart(w, k) == s.startsAt;
  }

  /** t is a grid point of w, late enough, from which the service fits: what the window should
      offer, with no early stop and no check against the opening instant. */
  ghost predicate Fitting(req: SlotRequest, w: DayWindow, t: int) {
    w.opens < w.closes && req.earliest <= t && exists k :: 0 <= k && req.GridStart(w, k) == t && req.Fits(w, k)
  }

  /** The walk gets to every grid point that fits, and skips none as being before the opening. */
  ghost predicate WalksAll(req: SlotRequest, w: DayWindow) {
    forall k | 0 <= k && req.Fits(w, k) :: req.Reached(w, k) && req.At(w.opens) <= req.GridStart(w, k)
  }

  lemma MulMonotone(j: int, k: int, n: int)
    requires 0 <= j <= k && 0 <= n
    ensures 0 <= j * n <= k * n
  {
  }

  lemma InOrderWalksAll(req: SlotRequest, w: DayWindow)
    requires req.step >= MINUTE && req.total > 0 && InOrder(req.Zone(), req.Day(), w.opens, w.closes)
    ensures WalksAll(req, w)
  {
    forall k | 0 <= k && req.Fits(w, k) ensures req.Reached(w, k) && req.At(w.opens) <= req.GridStart(w, k) {
      forall j | 0 <= j <= k ensures req.GridStart(w, j) <= req.GridStart(w, k) { MulMonotone(j, k, req.Stride()); }
      assert req.GridStart(w, 0) == req.At(w.opens);
      assert forall j | 0 <= j <= k :: req.Fits(w, j);
    }
  }

  /** While local time runs in order up to the closing instant, the early stop hides nothing. */
  lemma GridWithoutBreak(req: SlotRequest, w: DayWindow, t: int)
    requires req.step >= MINUTE && req.total > 0 && InOrder(req.Zone(), req.Day(), w.opens, w.closes)
    ensures req.OnGrid(w, t) <==> Fitting(req, w, t)
  {
    InOrderWalksAll(req, w);
    if req.OnGrid(w, t) {
      var k :| 0 <= k && req.GridPoint(w, k, t);
      assert req.Fits(w, k) && req.GridStart(w, k) == t;
    }
    if Fitting(req, w, t) {
      var k :| 0 <= k && req.GridStart(w, k) == t && req.Fits(w, k);
      assert req.GridPoint(w, k, t);
    }
  }

  /** Completeness: then every fitting grid point of a free resource is offered. */
  lemma OffersAreComplete(req: SlotRequest, slots: seq<Slot>, w: DayWindow, k: int)
    requires req.total > 0 && req.step >= MINUTE && InOrder(req.Zone(), req.Day(), w.opens, w.closes)
    requires IsSlotList(req, slots)
    requires w in req.windows && w.opens < w.closes && 0 <= k && req.Fits(w, k)
    requires req.earliest <= req.GridStart(w, k) && !req.IsBusy(w.resource, req.GridStart(w, k))
    ensures exists s :: s in slots && s.startsAt == req.GridStart(w, k) && w.resource in s.resources
  {
    var t := req.GridStart(w, k);
    GridWithoutBreak(req, w, t);
    assert req.Free(t, w.resource);
    ListedHasSlot(req, slots, t);
  }

  /** t is k steps of whole minutes after the opening, and the appointment ends by the closing. */
  ghost predicate StepOf(loc: Location, day: int, w: DayWindow, k: int, step: int, total: int, t: int) {
    && w.opens < w.closes && 0 <= k
    && t == loc.at(day, w.opens + k * (step / 60_000_000_000))
    && t + total <= loc.at(day, w.closes)
  }

  lemma StepIsFitting(req: SlotRequest, w: DayWindow, t: int)
    ensures Fitting(req, w, t) <==>
            (req.earliest <= t && exists k :: StepOf(req.Zone(), req.Day(), w, k, req.step, req.total, t))
  {
    if Fitting(req, w, t) {
      var k :| 0 <= k && req.GridStart(w, k) == t && req.Fits(w, k);
      assert StepOf(req.Zone(), req.Day(), w, k, req.step, req.total, t);
    }
    if k :| StepOf(req.Zone(), req.Day(), w, k, req.step, req.total, t) {
      assert req.GridStart(w, k) == t && req.Fits(w, k);
    }
  }

  lemma FreeExactly(req: SlotRequest, t: int, r: Id)
    requires req.total > 0 && req.step >= MINUTE
    requires forall w | w in req.windows :: InOrder(req.Zone(), req.Day(), w.opens, w.closes)
    ensures req.Free(t, r) <==>
            (req.earliest <= t && !req.IsBusy(r, t)
             && exists w, k :: w in req.windows && w.resource == r
                               && StepOf(req.Zone(), req.Day(), w, k, req.step, req.total, t))
  {
    forall w | w in req.windows
      ensures req.OnGrid(w, t) <==>
              (req.earliest <= t && exists k :: StepOf(req.Zone(), req.Day(), w, k, req.step, req.total, t))
    {
      GridWithoutBreak(req, w, t);
      StepIsFitting(req, w, t);
    }
  }

  /** The whole of the generator in plain terms, for windows whose minutes run in order: a resource
      is offered at t exactly when t is a whole number of steps after one of its openings, not too
      soon, the appointment ends by the closing, and no busy interval of the resource meets it. */
  lemma OffersExactly(req: SlotRequest, slots: seq<Slot>, t: int, r: Id, loc: Location)
    requires IsSlotList(req, slots) && req.total > 0 && req.step >= MINUTE
    requires loc == if req.location.Some? then req.location.value else UTC
    requires forall w | w in req.windows :: InOrder(loc, loc.dayOf(req.date), w.opens, w.closes)
    ensures (exists s :: s in slots && s.startsAt == t && r in s.resources) <==>
            (req.earliest <= t
             && (forall b | b in req.busy && b.resource == r :: t + req.total <= b.start || b.end <= t)
             && exists w, k :: w in req.windows && w.resource == r
                               && StepOf(loc, loc.dayOf(req.date), w, k, req.step, req.total, t))
  {
    FreeExactly(req, t, r);
    ListedHasSlot(req, slots, t);
    if req.Free(t, r) { assert req.Open(t); }
  }

  // --- exactly when the early stop is harmless -----------------------------------

  /** A request for this date and zone that the generator does not turn away at once. */
  ghost predicate Asks(req: SlotRequest, loc: Location, date: int) {
    req.location == Some(loc) && req.date == date && req.step >= MINUTE && req.total > 0
  }

  function GridRequest(loc: Location, date: int, total: int, minutes: int, earliest: int): SlotRequest {
    SlotRequest(date, Some(loc), total, minutes * MINUTE, earliest, [], [], false)
  }

  /** For one window: every request walks all that fits if and only if the window's minutes run
      in order up to its closing instant. */
  lemma WalkIsCompleteExactly(loc: Location, date: int, w: DayWindow)
    ensures InOrder(loc, loc.dayOf(date), w.opens, w.closes)
        <==> forall req | Asks(req, loc, date) :: WalksAll(req, w)
  {
    var d := loc.dayOf(date);
    if InOrder(loc, d, w.opens, w.closes) {
      forall req | Asks(req, loc, date) ensures WalksAll(req, w) { InOrderWalksAll(req, w); }
    } else {
      var m, n :| w.opens <= m <= n && loc.at(d, n) < loc.at(d, w.closes) && loc.at(d, m) > loc.at(d, n);
      var req := GridRequest(loc, date, loc.at(d, w.closes) - loc.at(d, n), 1, 0);
      assert Asks(req, loc, date) && req.Stride() == 1;
      assert req.Fits(w, n - w.opens) && !req.Fits(w, m - w.opens);
      assert !WalksAll(req, w);
    }
  }

  ghost predicate OffersExactlyFitting(req: SlotRequest) {
    forall w: DayWindow, t :: req.OnGrid(w, t) <==> Fitting(req, w, t)
  }

  /** For a whole zone: every window of every request offers exactly the starts that fit if and
      only if the zone keeps order on that day. */
  lemma CompleteExactlyInOrder(loc: Location, date: int)
    requires Zone(loc)
    ensures OrderPreserving(loc, loc.dayOf(date)) <==> forall req | Asks(req, loc, date) :: OffersExactlyFitting(req)
  {
    var d := loc.dayOf(date);
    if OrderPreserving(loc, d) {
      forall req | Asks(req, loc, date) ensures OffersExactlyFitting(req) {
        forall w: DayWindow, t ensures req.OnGrid(w, t) <==> Fitting(req, w, t) { GridWithoutBreak(req, w, t); }
      }
    } else {
      var m, n :| m <= n && loc.at(d, m) > loc.at(d, n);
      OutOfOrderHidesAStart(loc, date, m, n);
    }
  }

  /** Open at m, step to n: the start at n comes before the opening instant. */
  lemma OutOfOrderHidesAStart(loc: Location, date: int, m: int, n: int)
    requires Zone(loc) && m <= n && loc.at(loc.dayOf(date), m) > loc.at(loc.dayOf(date), n)
    ensures exists req :: Asks(req, loc, date) && !OffersExactlyFitting(req)
  {
    var d := loc.dayOf(date);
    var w := DayWindow("a", m, n + 10_000);
    var t := loc.at(d, n);
    var req := GridRequest(loc, date, loc.at(d, w.closes) - t, n - m, t);
    assert req.Stride() == n - m;
    assert req.GridStart(w, 1) == t && req.Fits(w, 1);
    assert Fitting(req, w, t);
    assert !req.OnGrid(w, t);
    assert Asks(req, loc, date) && !OffersExactlyFitting(req);
  }

  /** An input: clocks skip the hour from 02:00 to 03:00, the window closes inside it, and a start
      that fits and is free lies behind the first overrun. */
  lemma EarlyStopHidesAStart()
    ensures var w := DayWindow("a", 60, 150);
            var req := SlotRequest(0, Some(SpringForward(120)), 15 * MINUTE, 25 * MINUTE, 0, [w], [], false);
            && Zone(req.Zone()) && req.UsableStep()
            && req.Fits(w, 3) && req.GridStart(w, 3) == 75 * MINUTE && req.At(w.opens) <= req.GridStart(w, 3)
            && !req.IsBusy("a", 75 * MINUTE) && !req.Open(75 * MINUTE)
  {
    var w := DayWindow("a", 60, 150);
    var req := SlotRequest(0, Some(SpringForward(120)), 15 * MINUTE, 25 * MINUTE, 0, [w], [], false);
    SpringForwardIsAZone(120);
    assert req.Stride() == 25 && req.Day() == 0;
    assert !req.Fits(w, 1);
    assert req.GridStart(w, 0) == 60 * MINUTE;
  }

  // --- busy intervals act only on resources ------------------------------------

  lemma ListedHasSlot(req: SlotRequest, slots: seq<Slot>, t: int)
    requires IsSlotList(req, slots)
    ensures req.Listed(t) <==> exists s :: s in slots && s.startsAt == t
    ensures forall s | s in slots && s.startsAt == t :: forall r :: r in s.resources <==> req.Free(t, r)
  {
    if req.Listed(t) {
      var s := TheSlot(req, t);
      assert s in slots;
    }
  }

  /** The correct slot at a listed start exists whether or not a list is at hand. */
  lemma TheSlot(req: SlotRequest, t: int) returns (s: Slot)
    requires req.Listed(t)
    ensures s.startsAt == t && req.CorrectSlot(s)
  {
    var rs := FreeResources(req, t, req.windows);
    LexIsStrictWeak();
    SortOrdered(LexLess, rs);
    SortedIds(rs, Sort(LexLess, rs));
    s := Slot(t, Sort(LexLess, rs));
    assert forall r :: r in s.resources <==> req.Free(t, r);
  }

  lemma {:induction false} FreeResources(req: SlotRequest, t: int, ws: seq<DayWindow>) returns (rs: seq<Id>)
    requires forall w | w in ws :: w in req.windows
    ensures NoDuplicates(rs)
    ensures forall r :: r in rs <==> req.Free(t, r) && exists w :: w in ws && w.resource == r && req.OnGrid(w, t)
    ensures ws == req.windows ==> forall r :: r in rs <==> req.Free(t, r)
  {
    if ws == [] {
      rs := [];
    } else {
      var init, last := ws[..|ws| - 1], ws[|ws| - 1];
      assert ws == init + [last];
      var before := FreeResources(req, t, init);
      rs := if req.Free(t, last.resource) && req.OnGrid(last, t) && last.resource !in before
          then before + [last.resource] else before;
    }
  }

  function Starts(slots: seq<Slot>): (starts: seq<int>)
    ensures |starts| == |slots| && forall i | 0 <= i < |slots| :: starts[i] == slots[i].startsAt
  {
    if slots == [] then [] else [slots[0].startsAt] + Starts(slots[1..])
  }

  function WithResources(slots: seq<Slot>): seq<Slot> {
    if slots == [] then []
    else if slots[0].resources == [] then WithResources(slots[1..])
    else [slots[0]] + WithResources(slots[1..])
  }

  function IntLess(a: int, b: int): bool {
    a < b
  }

  /** The starts of the full list do not depend on what is booked. */
  lemma FullStartsIgnoreBusy(p: SlotRequest, q: SlotRequest, a: seq<Slot>, b: seq<Slot>)
    requires q == p.(busy := q.busy) && p.includeFullyBooked
    requires IsSlotList(p, a) && IsSlotList(q, b)
    ensures Starts(a) == Starts(b)
  {
    forall t ensures t in Starts(a) <==> t in Starts(b) {
      forall w ensures p.OnGrid(w, t) <==> q.OnGrid(w, t) { SameGrid(p, q, w, t); SameGrid(q, p, w, t); }
      assert p.Open(t) <==> q.Open(t);
      ListedHasSlot(p, a, t);
      ListedHasSlot(q, b, t);
      StartsMembers(a, t);
      StartsMembers(b, t);
    }
    AscendingUnique(IntLess, Starts(a), Starts(b));
  }

  lemma StartsMembers(slots: seq<Slot>, t: int)
    ensures t in Starts(slots) <==> exists s :: s in slots && s.startsAt == t
  {
    if t in Starts(slots) {
      var i :| 0 <= i < |slots| && Starts(slots)[i] == t;
      assert slots[i] in slots;
    }
    if s :| s in slots && s.startsAt == t {
      var i :| 0 <= i < |slots| && slots[i] == s;
      assert Starts(slots)[i] == t;
    }
  }

  lemma {:induction false} WithResourcesMembers(slots: seq<Slot>)
    requires Ascending(Earlier, slots)
    ensures Ascending(Earlier, WithResources(slots))
    ensures forall s :: s in WithResources(slots) <==> s in slots && s.resources != []
  {
    if slots != [] {
      WithResourcesMembers(slots[1..]);
      assert slots == [slots[0]] + slots[1..];
      forall s | s in slots[1..] ensures Earlier(slots[0], s) {
        var i :| 0 <= i < |slots[1..]| && slots[1..][i] == s;
        assert slots[i + 1] == s;
      }
      forall i | 0 <= i < |WithResources(slots[1..])| ensures Earlier(slots[0], WithResources(slots[1..])[i]) {
        assert WithResources(slots[1..])[i] in WithResources(slots[1..]);
      }
    }
  }

  /** Dropping the starts that nothing is free to take gives exactly the browse list. */
  lemma BrowseIsFullWithoutEmpty(p: SlotRequest, full: seq<Slot>, browse: seq<Slot>)
    requires p.includeFullyBooked && IsSlotList(p, full) && IsSlotList(p.(includeFullyBooked := false), browse)
    ensures browse == WithResources(full)
  {
    var q := p.(includeFullyBooked := false);
    WithResourcesMembers(full);
    forall w, t ensures p.OnGrid(w, t) <==> q.OnGrid(w, t) { SameGrid(p, q, w, t); SameGrid(q, p, w, t); }
    forall t, r ensures p.Free(t, r) <==> q.Free(t, r) { assert p.IsBusy(r, t) <==> q.IsBusy(r, t); }
    forall s ensures s in browse <==> s in WithResources(full) {
      if p.CorrectSlot(s) && s.resources != [] {
        assert p.Free(s.startsAt, s.resources[0]);
      }
      if q.CorrectSlot(s) {
        var r :| q.Free(s.startsAt, r);
        assert r in s.resources && p.Free(s.startsAt, r);
      }
    }
    AscendingUnique(Earlier, browse, WithResources(full));
  }

  /** More busy time can only shrink each start's resources. */
  lemma MoreBusyFewerResources(p: SlotRequest, q: SlotRequest, a: seq<Slot>, b: seq<Slot>, s: Slot, r: Id)
    requires q == p.(busy := q.busy) && forall i | i in p.busy :: i in q.busy
    requires IsSlotList(p, a) && IsSlotList(q, b) && s in b && r in s.resources
    ensures exists u :: u in a && u.startsAt == s.startsAt && r in u.resources
  {
    var t := s.startsAt;
    forall w ensures q.OnGrid(w, t) ==> p.OnGrid(w, t) { SameGrid(q, p, w, t); }
    assert q.Free(t, r);
    assert p.IsBusy(r, t) ==> q.IsBusy(r, t);
    assert p.Free(t, r) && p.Open(t);
    ListedHasSlot(p, a, t);
  }

  /** A listed start with no resource means every resource whose window offers that start is busy. */
  lemma EmptySlotMeansAllBusy(req: SlotRequest, slots: seq<Slot>, s: Slot)
    requires IsSlotList(req, slots) && s in slots && s.resources == []
    ensures exists w :: w in req.windows && req.OnGrid(w, s.startsAt)
    ensures forall w | w in req.windows && req.OnGrid(w, s.startsAt) :: req.IsBusy(w.resource, s.startsAt)
  {
    assert req.includeFullyBooked;
    forall w | w in req.windows && req.OnGrid(w, s.startsAt) ensures req.IsBusy(w.resource, s.startsAt) {
      assert !req.Free(s.startsAt, w.resource);
    }
  }
}
