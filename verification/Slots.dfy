/** internal/scheduling/slots.go: the slot generator.

    The code walks a step grid through each window and stops a window at the first start
    that would overrun its end. The specification below is declarative and holds for every
    zone, including one whose local minutes run out of order; SlotLaws says exactly when the
    early stop is invisible. */
module Slots {
  import opened Wrappers
  import opened Sorting
  import opened Calendar
  import opened Windows

  datatype BusyInterval = BusyInterval(resource: Id, start: int, end: int)

  datatype Slot = Slot(startsAt: int, resources: seq<Id>)

  datatype SlotRequest = SlotRequest(
    date: int,
    location: Option<Location>,
    total: int,
    step: int,
    earliest: int,
    windows: seq<DayWindow>,
    busy: seq<BusyInterval>,
    includeFullyBooked: bool)
  {
    function Zone(): Location {
      if location.None? then UTC else location.value
    }

    function Day(): int {
      Zone().dayOf(date)
    }

    function At(minute: int): int {
      Zone().at(Day(), minute)
    }

    // `int(req.Step / time.Minute)`
    function Stride(): int {
      step / MINUTE
    }

    function GridStart(w: DayWindow, k: int): int {
      At(w.opens + k * Stride())
    }

    predicate Fits(w: DayWindow, k: int) {
      GridStart(w, k) + total <= At(w.closes)
    }

    /** The walk gets as far as grid point k: nothing up to it overruns. */
    ghost predicate Reached(w: DayWindow, k: int) {
      forall j | 0 <= j <= k :: Fits(w, j)
    }

    ghost predicate GridPoint(w: DayWindow, k: int, t: int) {
      Reached(w, k) && GridStart(w, k) == t && At(w.opens) <= t && earliest <= t
    }

    /** t is one of the first n grid points of w, and late enough. */
    ghost predicate GridUpTo(w: DayWindow, n: int, t: int) {
      exists k :: 0 <= k < n && GridPoint(w, k, t)
    }

    ghost predicate OnGrid(w: DayWindow, t: int) {
      w.opens < w.closes && exists k :: 0 <= k && GridPoint(w, k, t)
    }

    ghost predicate IsBusy(r: Id, t: int) {
      exists b :: b in busy && b.resource == r && t < b.end && b.start < t + total
    }

    /** t is a time to ask for, whether or not anything is free to take it. */
    ghost predicate Open(t: int) {
      total > 0 && step > 0 && exists w :: w in windows && OnGrid(w, t)
    }

    /** r can take [t, t + total). */
    ghost predicate Free(t: int, r: Id) {
      total > 0 && step > 0 && !IsBusy(r, t) && exists w :: w in windows && w.resource == r && OnGrid(w, t)
    }

    ghost predicate Listed(t: int) {
      if includeFullyBooked then Open(t) else exists r :: Free(t, r)
    }

    ghost predicate CorrectSlot(s: Slot) {
      && Listed(s.startsAt)
      && Ascending(LexLess, s.resources)
      && forall r :: r in s.resources <==> Free(s.startsAt, r)
    }

    // Steps are whole minutes; a positive step below one minute would never advance.
    predicate UsableStep() {
      step <= 0 || step >= MINUTE
    }
  }

  function Earlier(a: Slot, b: Slot): bool {
    a.startsAt < b.startsAt
  }

  /** The slot list of a request: starts strictly increasing, exactly the correct slots. */
  ghost predicate IsSlotList(req: SlotRequest, slots: seq<Slot>) {
    && (forall i, j | 0 <= i < j < |slots| :: slots[i].startsAt < slots[j].startsAt)
    && forall s :: s in slots <==> req.CorrectSlot(s)
  }

  // --- the code ------------------------------------------------------------------

  function Lookup<V>(m: map<int, seq<V>>, t: int): seq<V> {
    if t in m then m[t] else []
  }

  predicate Overlaps(start: int, end: int, b: BusyInterval) {
    start < b.end && b.start < end
  }

  method OverlapsAny(start: int, end: int, busy: seq<BusyInterval>) returns (found: bool)
    ensures found <==> exists b :: b in busy && Overlaps(start, end, b)
  {
    for i := 0 to |busy|
      invariant forall b | b in busy[..i] :: !Overlaps(start, end, b)
    {
      if Overlaps(start, end, busy[i]) {
        return true;
      }
    }
    return false;
  }

  method GroupBusy(busy: seq<BusyInterval>) returns (byResource: map<Id, seq<BusyInterval>>)
    ensures forall r, b :: (r in byResource && b in byResource[r]) <==> b in busy && b.resource == r
  {
    byResource := map[];
    for i := 0 to |busy|
      invariant forall r, b :: (r in byResource && b in byResource[r]) <==> b in busy[..i] && b.resource == r
    {
      var interval := busy[i];
      assert busy[..i + 1] == busy[..i] + [interval];
      var before := if interval.resource in byResource then byResource[interval.resource] else [];
      byResource := byResource[interval.resource := before + [interval]];
    }
    assert busy[..|busy|] == busy;
  }

  lemma GridStep(req: SlotRequest, w: DayWindow, n: int)
    requires 0 <= n && req.Reached(w, n)
    ensures forall t :: req.GridUpTo(w, n + 1, t) <==>
                        req.GridUpTo(w, n, t) ||
                        (t == req.GridStart(w, n) && req.At(w.opens) <= t && req.earliest <= t)
  {
    var t := req.GridStart(w, n);
    if req.At(w.opens) <= t && req.earliest <= t {
      assert req.GridPoint(w, n, t);
      assert req.GridUpTo(w, n + 1, t);
    }
    forall u | req.GridUpTo(w, n + 1, u) ensures req.GridUpTo(w, n, u) || u == t {
      var k :| 0 <= k < n + 1 && req.GridPoint(w, k, u);
      assert k < n ==> req.GridUpTo(w, n, u);
    }
    forall u | req.GridUpTo(w, n, u) ensures req.GridUpTo(w, n + 1, u) {
      var k :| 0 <= k < n && req.GridPoint(w, k, u);
    }
  }

  lemma GridDone(req: SlotRequest, w: DayWindow, n: int)
    requires 0 <= n && !req.Fits(w, n) && w.opens < w.closes
    ensures forall t :: req.GridUpTo(w, n, t) <==> req.OnGrid(w, t)
  {
    forall t | req.OnGrid(w, t) ensures req.GridUpTo(w, n, t) {
      var k :| 0 <= k && req.GridPoint(w, k, t);
      assert k < n;
    }
  }

  // The tables after a window: the grid points of w join `bookable`, and, where w's resource
  // is free, its candidates.
  ghost predicate Extended(req: SlotRequest, w: DayWindow, n: int, busy: seq<BusyInterval>,
                           candidates0: map<int, seq<Id>>, bookable0: set<int>,
                           candidates: map<int, seq<Id>>, bookable: set<int>) {
    && (forall t :: t in bookable <==> t in bookable0 || req.GridUpTo(w, n, t))
    && (forall t, r :: r in Lookup(candidates, t) <==>
          r in Lookup(candidates0, t) ||
          (r == w.resource && req.GridUpTo(w, n, t) && !exists b :: b in busy && Overlaps(t, t + req.total, b)))
    && Tidy(candidates)
  }

  ghost predicate Tidy(candidates: map<int, seq<Id>>) {
    forall t | t in candidates :: candidates[t] != [] && NoDuplicates(candidates[t])
  }

  method Offer(candidates0: map<int, seq<Id>>, bookable0: set<int>, start: int, end: int, resource: Id,
               busy: seq<BusyInterval>)
    returns (candidates: map<int, seq<Id>>, bookable: set<int>)
    requires Tidy(candidates0)
    ensures Tidy(candidates) && bookable == bookable0 + {start}
    ensures forall t, r :: r in Lookup(candidates, t) <==>
              r in Lookup(candidates0, t) ||
              (t == start && r == resource && !exists b :: b in busy && Overlaps(start, end, b))
  {
    candidates, bookable := candidates0, bookable0 + {start};
    var taken := OverlapsAny(start, end, busy);
    if taken {
      return;
    }
    var ids := Lookup(candidates, start);
    if resource !in ids {
      candidates := candidates[start := ids + [resource]];
    }
  }

  // The tables after the whole walk of w.
  ghost predicate Walked(req: SlotRequest, w: DayWindow, busy: seq<BusyInterval>,
                         candidates0: map<int, seq<Id>>, bookable0: set<int>,
                         candidates: map<int, seq<Id>>, bookable: set<int>) {
    && (forall t :: t in bookable <==> t in bookable0 || req.OnGrid(w, t))
    && (forall t, r :: r in Lookup(candidates, t) <==>
          r in Lookup(candidates0, t) ||
          (r == w.resource && req.OnGrid(w, t) && !exists b :: b in busy && Overlaps(t, t + req.total, b)))
    && Tidy(candidates)
  }

  method WalkWindow(req: SlotRequest, w: DayWindow, busy: seq<BusyInterval>, candidates0: map<int, seq<Id>>,
                    bookable0: set<int>)
    returns (candidates: map<int, seq<Id>>, bookable: set<int>)
    requires w.opens < w.closes && req.total > 0 && req.step >= MINUTE && Zone(req.Zone()) && Tidy(candidates0)
    ensures Walked(req, w, busy, candidates0, bookable0, candidates, bookable)
  {
    candidates, bookable := candidates0, bookable0;
    ghost var n := 0;
    var windowStart := req.At(w.opens);
    var windowEnd := req.At(w.closes);
    var offset := 0;
    while true
      invariant 0 <= n && offset == n * req.Stride()
      invariant forall j | 0 <= j < n :: req.Fits(w, j)
      invariant Extended(req, w, n, busy, candidates0, bookable0, candidates, bookable)
      decreases windowEnd + MAX_OFFSET - (req.Day() * MINUTES_PER_DAY + w.opens + offset) * MINUTE
    {
      var start := req.At(w.opens + offset);
      var end := start + req.total;
      if end > windowEnd {
        GridDone(req, w, n);
        break;
      }
      assert req.Fits(w, n) && req.Reached(w, n);
      GridStep(req, w, n);
      if start >= windowStart && start >= req.earliest {
        candidates, bookable := Offer(candidates, bookable, start, end, w.resource, busy);
      }
      offset, n := offset + req.Stride(), n + 1;
    }
  }

  // What the first n windows have produced.
  ghost predicate OpenIn(req: SlotRequest, n: nat, t: int)
    requires n <= |req.windows|
  {
    exists i :: 0 <= i < n && req.OnGrid(req.windows[i], t)
  }

  ghost predicate FreeIn(req: SlotRequest, n: nat, t: int, r: Id)
    requires n <= |req.windows|
  {
    !req.IsBusy(r, t) && exists i :: 0 <= i < n && req.windows[i].resource == r && req.OnGrid(req.windows[i], t)
  }

  ghost predicate Progress(req: SlotRequest, n: nat, candidates: map<int, seq<Id>>, bookable: set<int>)
    requires n <= |req.windows|
  {
    && Tidy(candidates)
    && (forall t :: t in bookable <==> OpenIn(req, n, t))
    && (forall t, r :: r in Lookup(candidates, t) <==> FreeIn(req, n, t, r))
  }

  lemma WindowStep(req: SlotRequest, n: nat, busy: seq<BusyInterval>,
                   candidates0: map<int, seq<Id>>, bookable0: set<int>, candidates: map<int, seq<Id>>,
                   bookable: set<int>)
    requires n < |req.windows|
    requires Progress(req, n, candidates0, bookable0)
    requires forall b :: b in busy <==> b in req.busy && b.resource == req.windows[n].resource
    requires Walked(req, req.windows[n], busy, candidates0, bookable0, candidates, bookable)
    ensures Progress(req, n + 1, candidates, bookable)
  {
    var w := req.windows[n];
    forall t ensures t in bookable <==> OpenIn(req, n + 1, t) {
      assert OpenIn(req, n + 1, t) <==> OpenIn(req, n, t) || req.OnGrid(w, t);
    }
    forall t, r ensures r in Lookup(candidates, t) <==> FreeIn(req, n + 1, t, r) {
      assert FreeIn(req, n + 1, t, r)
          <==> FreeIn(req, n, t, r) || (r == w.resource && !req.IsBusy(r, t) && req.OnGrid(w, t));
      if r == w.resource {
        assert req.IsBusy(r, t) <==> exists b :: b in busy && Overlaps(t, t + req.total, b);
      }
    }
  }

  lemma SkipWindow(req: SlotRequest, n: nat, candidates: map<int, seq<Id>>, bookable: set<int>)
    requires n < |req.windows| && req.windows[n].closes <= req.windows[n].opens
    requires Progress(req, n, candidates, bookable)
    ensures Progress(req, n + 1, candidates, bookable)
  {
    forall t ensures t in bookable <==> OpenIn(req, n + 1, t) {
      assert OpenIn(req, n + 1, t) <==> OpenIn(req, n, t);
    }
    forall t, r ensures r in Lookup(candidates, t) <==> FreeIn(req, n + 1, t, r) {
      assert FreeIn(req, n + 1, t, r) <==> FreeIn(req, n, t, r);
    }
  }

  method GenerateSlots(req: SlotRequest) returns (slots: seq<Slot>)
    requires Zone(req.Zone()) && req.UsableStep()
    ensures IsSlotList(req, slots)
    ensures forall i, j | 0 <= i < j < |slots| :: slots[i].startsAt < slots[j].startsAt
  {
    if req.total <= 0 || req.step <= 0 || |req.windows| == 0 {
      slots := [];
      return;
    }
    var busyByResource := GroupBusy(req.busy);
    var candidates: map<int, seq<Id>> := map[];
    var bookable: set<int> := {};
    for i := 0 to |req.windows|
      invariant Progress(req, i, candidates, bookable)
    {
      var w := req.windows[i];
      if w.closes <= w.opens {
        SkipWindow(req, i, candidates, bookable);
        continue;
      }
      var busy := if w.resource in busyByResource then busyByResource[w.resource] else [];
      ghost var candidates0, bookable0 := candidates, bookable;
      candidates, bookable := WalkWindow(req, w, busy, candidates, bookable);
      WindowStep(req, i, busy, candidates0, bookable0, candidates, bookable);
    }
    ProgressIsAll(req, candidates, bookable);
    ListedStarts(req, candidates, bookable);

    if req.includeFullyBooked {
      candidates := AddFullyBooked(candidates, bookable);
    }
    slots := Assemble(req, candidates);
  }

  lemma ListedStarts(req: SlotRequest, candidates: map<int, seq<Id>>, bookable: set<int>)
    requires Tidy(candidates)
    requires forall t :: t in bookable <==> req.Open(t)
    requires forall t, r :: r in Lookup(candidates, t) <==> req.Free(t, r)
    ensures forall t :: t in candidates <==> exists r :: req.Free(t, r)
    ensures forall t, r | req.Free(t, r) :: req.Open(t)
  {
    forall t ensures t in candidates <==> exists r :: req.Free(t, r) {
      if t in candidates {
        assert candidates[t][0] in Lookup(candidates, t);
      }
    }
  }

  lemma ProgressIsAll(req: SlotRequest, candidates: map<int, seq<Id>>, bookable: set<int>)
    requires req.total > 0 && req.step > 0 && Progress(req, |req.windows|, candidates, bookable)
    ensures forall t :: t in bookable <==> req.Open(t)
    ensures forall t, r :: r in Lookup(candidates, t) <==> req.Free(t, r)
  {
    forall t ensures t in bookable <==> req.Open(t) {
      assert OpenIn(req, |req.windows|, t) <==> req.Open(t);
    }
    forall t, r ensures r in Lookup(candidates, t) <==> req.Free(t, r) {
      assert FreeIn(req, |req.windows|, t, r) <==> req.Free(t, r);
    }
  }

  // `for start := range bookable`: the iteration order is unspecified.
  method AddFullyBooked(candidates0: map<int, seq<Id>>, bookable: set<int>) returns (candidates: map<int, seq<Id>>)
    ensures forall t :: t in candidates <==> t in candidates0 || t in bookable
    ensures forall t | t in candidates :: candidates[t] == Lookup(candidates0, t)
  {
    candidates := candidates0;
    var pending := bookable;
    while pending != {}
      invariant forall t :: t in candidates <==> t in candidates0 || (t in bookable && t !in pending)
      invariant forall t | t in candidates :: candidates[t] == Lookup(candidates0, t)
      invariant pending <= bookable
      decreases pending
    {
      var start := Pick(pending);
      if start !in candidates {
        candidates := candidates[start := []];
      }
      pending := pending - {start};
    }
  }

  // The slots built while ranging over the candidates whose keys are `keys`.
  ghost predicate Collected(req: SlotRequest, keys: set<int>, pending: set<int>, slots: seq<Slot>) {
    && pending <= keys
    && (forall s | s in slots :: req.CorrectSlot(s) && s.startsAt !in pending)
    && (forall t | t in keys && t !in pending :: exists s :: s in slots && s.startsAt == t)
    && (forall i, j | 0 <= i < j < |slots| :: slots[i].startsAt != slots[j].startsAt)
  }

  lemma CollectStep(req: SlotRequest, keys: set<int>, pending: set<int>, slots: seq<Slot>, slot: Slot)
    requires Collected(req, keys, pending, slots) && slot.startsAt in pending && req.CorrectSlot(slot)
    ensures Collected(req, keys, pending - {slot.startsAt}, slots + [slot])
  {
    var slots', pending' := slots + [slot], pending - {slot.startsAt};
    forall t | t in keys && t !in pending' ensures exists s :: s in slots' && s.startsAt == t {
      if t == slot.startsAt {
        assert slot in slots';
      } else {
        var s :| s in slots && s.startsAt == t;
        assert s in slots';
      }
    }
    forall i, j | 0 <= i < j < |slots'| ensures slots'[i].startsAt != slots'[j].startsAt {
      assert slots[i] in slots;
    }
  }

  method SlotAt(req: SlotRequest, start: int, ids: seq<Id>) returns (slot: Slot)
    requires req.Listed(start) && NoDuplicates(ids) && forall r :: r in ids <==> req.Free(start, r)
    ensures slot.startsAt == start && req.CorrectSlot(slot)
  {
    LexIsStrictWeak();
    var sorted := SortSlice(LexLess, ids);
    SortedIds(ids, sorted);
    slot := Slot(start, sorted);
  }

  // `for start, resourceIDs := range candidates`, in any order, then the final sort.
  method Assemble(req: SlotRequest, candidates: map<int, seq<Id>>) returns (slots: seq<Slot>)
    requires forall t :: t in candidates <==> req.Listed(t)
    requires forall t | t in candidates :: NoDuplicates(candidates[t])
    requires forall t, r | t in candidates :: r in candidates[t] <==> req.Free(t, r)
    ensures IsSlotList(req, slots)
    ensures forall i, j | 0 <= i < j < |slots| :: slots[i].startsAt < slots[j].startsAt
  {
    slots := [];
    var pending := candidates.Keys;
    while pending != {}
      invariant Collected(req, candidates.Keys, pending, slots)
      decreases pending
    {
      var start := Pick(pending);
      var slot := SlotAt(req, start, candidates[start]);
      CollectStep(req, candidates.Keys, pending, slots, slot);
      slots, pending := slots + [slot], pending - {start};
    }
    ghost var all := slots;
    slots := SortSlice(Earlier, slots);
    FinishList(req, candidates.Keys, all, slots);
  }

  lemma SortedIds(ids: seq<Id>, sorted: seq<Id>)
    requires NoDuplicates(ids) && Ordered(LexLess, sorted) && multiset(sorted) == multiset(ids)
    ensures Ascending(LexLess, sorted) && forall r :: r in sorted <==> r in ids
  {
    PermutationKeepsDistinct(ids, sorted);
    OrderedDistinctStrings(sorted);
    SameMembers(ids, sorted);
  }

  /** At one start there is only one correct slot. */
  lemma CorrectSlotUnique(req: SlotRequest, a: Slot, b: Slot)
    requires req.CorrectSlot(a) && req.CorrectSlot(b) && a.startsAt == b.startsAt
    ensures a == b
  {
    LexIsStrictWeak();
    AscendingUnique(LexLess, a.resources, b.resources);
  }

  lemma FinishList(req: SlotRequest, keys: set<int>, all: seq<Slot>, slots: seq<Slot>)
    requires forall t :: t in keys <==> req.Listed(t)
    requires Collected(req, keys, {}, all)
    requires Ordered(Earlier, slots) && multiset(slots) == multiset(all)
    ensures IsSlotList(req, slots)
  {
    SameMembers(all, slots);
    forall s ensures s in slots <==> req.CorrectSlot(s) {
      if req.CorrectSlot(s) {
        var u :| u in all && u.startsAt == s.startsAt;
        CorrectSlotUnique(req, s, u);
      }
    }
    assert NoDuplicates(all);
    PermutationKeepsDistinct(all, slots);
    forall i, j | 0 <= i < j < |slots| ensures Earlier(slots[i], slots[j]) {
      assert slots[i] in slots && slots[j] in slots;
      assert slots[i] != slots[j];
      if slots[i].startsAt == slots[j].startsAt {
        assert false by { CorrectSlotUnique(req, slots[i], slots[j]); }
      }
    }
  }
}
