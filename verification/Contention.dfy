/** The exact outcome of a race for one time: internal/booking/service.go says that only when
    every candidate is gone is the slot genuinely taken. */
module Contention {
  import opened Counting
  import opened Windows
  import opened Lifecycle
  import opened Bookings
  import opened Protocol

  /** Before the race: every racer is about to try its first candidate, all of them hold the
      same resources in some order, want intervals that meet pairwise, and find every resource
      free for their interval. */
  ghost predicate RaceStart(s: State, racers: set<nat>, resources: set<Id>) {
    && Inv(s)
    && (forall p | p in racers :: p in s.procs && AtStart(s, s.procs[p], resources))
    && (forall p, q | p in racers && q in racers :: s.procs[p].demand.start < s.procs[q].demand.end)
  }

  ghost predicate AtStart(s: State, q: Process, resources: set<Id>) {
    && q.Trying? && q.index == 0
    && (forall r :: r in q.demand.candidates <==> r in resources)
    && (forall r | r in resources :: !Occupied(s.rows, r, q.demand.start, q.demand.end))
  }

  /** A step of the race: a racer moves without crashing and without using up its last attempt
      on a resource, or a transition that leaves its booking active runs. */
  ghost predicate RaceStep(s: State, s': State, racers: set<nat>) {
    exists p, kind :: Step(s, s', p, kind) && Harmless(s, s', p, kind, racers)
  }

  ghost predicate Harmless(s: State, s': State, p: nat, kind: Kind, racers: set<nat>) {
    match kind
    case Insert => p in racers
    case Exclude => p in racers
    case Retry => p in racers && p in s.procs && s.procs[p].Trying? && s.procs[p].attempt < MAX_ATTEMPTS - 1
    case Crash => false
    case Arrive => p in s'.procs && s'.procs[p].Reading?
    case Read => true
    case Write => p in s'.procs && (s'.procs[p].Moved? ==> IsActive(s'.procs[p].to))
  }

  ghost predicate Race(run: seq<State>, racers: set<nat>, resources: set<Id>) {
    && run != [] && RaceStart(run[0], racers, resources)
    && forall i | 0 <= i < |run| - 1 :: RaceStep(run[i], run[i + 1], racers)
  }

  // --- the invariant of a race -------------------------------------------------------

  /** Everything candidate-wise behind the racer is occupied for its interval. */
  ghost predicate Blocked(rows: seq<Row>, d: Demand, n: nat)
    requires n <= |d.candidates|
  {
    forall j | 0 <= j < n :: Occupied(rows, d.candidates[j], d.start, d.end)
  }

  ghost predicate RacerOk(s0: State, s: State, q0: Process, q: Process) {
    && q0.Trying?
    && match q
       case Trying(d, index, _, _) => d == q0.demand && index < |d.candidates| && Blocked(s.rows, d, index)
       case Reserved(d, b, _) =>
         d == q0.demand && |s0.rows| <= b < |s.rows| && s.rows[b].resource in d.candidates
         && s.rows[b].start == d.start && s.rows[b].end == d.end
       case Refused(d, _) => d == q0.demand && Blocked(s.rows, d, |d.candidates|)
       case _ => false
  }

  ghost predicate HasOwner(s: State, racers: set<nat>, b: int) {
    exists p :: p in racers && p in s.procs && s.procs[p].Reserved? && s.procs[p].booking == b
  }

  ghost predicate SameOccupancy(a: Row, b: Row) {
    a.resource == b.resource && a.start == b.start && a.end == b.end && a.Active() == b.Active()
  }

  ghost predicate RaceInv(s0: State, s: State, racers: set<nat>) {
    && Inv(s)
    && |s0.rows| <= |s.rows|
    && (forall b | 0 <= b < |s0.rows| :: SameOccupancy(s.rows[b], s0.rows[b]))
    && (forall b | |s0.rows| <= b < |s.rows| :: s.rows[b].Active() && HasOwner(s, racers, b))
    && (forall p | p in racers :: p in s0.procs && p in s.procs && RacerOk(s0, s, s0.procs[p], s.procs[p]))
  }

  lemma StillBlocked(rows: seq<Row>, rows': seq<Row>, d: Demand, n: nat)
    requires n <= |d.candidates| && Blocked(rows, d, n) && |rows| <= |rows'|
    requires forall b | 0 <= b < |rows| :: SameOccupancy(rows'[b], rows[b])
    ensures Blocked(rows', d, n)
  {
    forall j | 0 <= j < n ensures Occupied(rows', d.candidates[j], d.start, d.end) {
      assert Occupied(rows, d.candidates[j], d.start, d.end);
      var b :| 0 <= b < |rows| && rows[b].Active() && rows[b].resource == d.candidates[j]
          && rows[b].Meets(d.start, d.end);
      assert SameOccupancy(rows'[b], rows[b]);
    }
  }

  lemma RacerCarriesOver(s0: State, s: State, s': State, q0: Process, q: Process)
    requires RacerOk(s0, s, q0, q) && |s.rows| <= |s'.rows|
    requires forall b | 0 <= b < |s.rows| :: SameOccupancy(s'.rows[b], s.rows[b])
    ensures RacerOk(s0, s', q0, q)
  {
    if q.Trying? { StillBlocked(s.rows, s'.rows, q.demand, q.index); }
    if q.Refused? { StillBlocked(s.rows, s'.rows, q.demand, |q.demand.candidates|); }
    if q.Reserved? { assert SameOccupancy(s'.rows[q.booking], s.rows[q.booking]); }
  }

  /** Rows keep their occupancy across a harmless step. */
  lemma RowsCarryOver(s: State, s': State, p: nat, kind: Kind, racers: set<nat>)
    requires Inv(s) && Step(s, s', p, kind) && Harmless(s, s', p, kind, racers)
    ensures |s.rows| <= |s'.rows| && forall b | 0 <= b < |s.rows| :: SameOccupancy(s'.rows[b], s.rows[b])
  {
    if kind == Write && s'.procs[p].Moved? {
      TransitionsClimb(s.procs[p].seen, s.procs[p].event);
    }
  }

  /** The racer that moved is still in order. */
  lemma ActorOk(s0: State, s: State, s': State, p: nat, kind: Kind, racers: set<nat>)
    requires RaceInv(s0, s, racers) && Step(s, s', p, kind) && Harmless(s, s', p, kind, racers) && p in racers
    requires |s.rows| <= |s'.rows| && forall b | 0 <= b < |s.rows| :: SameOccupancy(s'.rows[b], s.rows[b])
    ensures RacerOk(s0, s', s0.procs[p], s'.procs[p])
  {
    var q := s.procs[p];
    assert RacerOk(s0, s, s0.procs[p], q);
    assert q.Trying?;
    StillBlocked(s.rows, s'.rows, q.demand, q.index);
    if kind == Exclude {
      assert Blocked(s.rows, q.demand, q.index + 1);
    }
  }

  lemma OwnersCarryOver(s0: State, s: State, s': State, p: nat, kind: Kind, racers: set<nat>)
    requires RaceInv(s0, s, racers) && Step(s, s', p, kind) && Harmless(s, s', p, kind, racers)
    requires |s.rows| <= |s'.rows| && forall b | 0 <= b < |s.rows| :: SameOccupancy(s'.rows[b], s.rows[b])
    ensures forall b | |s0.rows| <= b < |s'.rows| :: s'.rows[b].Active() && HasOwner(s', racers, b)
  {
    forall b | |s0.rows| <= b < |s'.rows| ensures s'.rows[b].Active() && HasOwner(s', racers, b) {
      if b < |s.rows| {
        assert SameOccupancy(s'.rows[b], s.rows[b]) && HasOwner(s, racers, b);
        var r :| r in racers && r in s.procs && s.procs[r].Reserved? && s.procs[r].booking == b;
        assert r != p && s'.procs[r] == s.procs[r];
      } else {
        assert kind == Insert && ProcessOk(s.rows, s.history, s.procs[p]);
        assert s'.procs[p].Reserved? && s'.procs[p].booking == b;
      }
    }
  }

  lemma RacersCarryOver(s0: State, s: State, s': State, p: nat, kind: Kind, racers: set<nat>, r: nat)
    requires RaceInv(s0, s, racers) && Step(s, s', p, kind) && Harmless(s, s', p, kind, racers) && r in racers
    requires |s.rows| <= |s'.rows| && forall b | 0 <= b < |s.rows| :: SameOccupancy(s'.rows[b], s.rows[b])
    ensures r in s'.procs && RacerOk(s0, s', s0.procs[r], s'.procs[r])
  {
    if r == p {
      ActorOk(s0, s, s', p, kind, racers);
    } else {
      assert s'.procs[r] == s.procs[r];
      RacerCarriesOver(s0, s, s', s0.procs[r], s.procs[r]);
    }
  }

  lemma RaceStepOk(s0: State, s: State, s': State, racers: set<nat>)
    requires RaceInv(s0, s, racers) && RaceStep(s, s', racers)
    ensures RaceInv(s0, s', racers)
  {
    var p, kind :| Step(s, s', p, kind) && Harmless(s, s', p, kind, racers);
    RowsCarryOver(s, s', p, kind, racers);
    assert Inv(s') by { StepOk(s, s', p, kind); }
    assert forall b | |s0.rows| <= b < |s'.rows| :: s'.rows[b].Active() && HasOwner(s', racers, b) by {
      OwnersCarryOver(s0, s, s', p, kind, racers);
    }
    forall b | 0 <= b < |s0.rows| ensures SameOccupancy(s'.rows[b], s0.rows[b]) {
      assert SameOccupancy(s'.rows[b], s.rows[b]) && SameOccupancy(s.rows[b], s0.rows[b]);
    }
    forall r | r in racers ensures r in s0.procs && r in s'.procs && RacerOk(s0, s', s0.procs[r], s'.procs[r]) {
      RacersCarryOver(s0, s, s', p, kind, racers, r);
    }
  }

  lemma {:induction false} RaceOk(run: seq<State>, racers: set<nat>, resources: set<Id>, i: nat)
    requires Race(run, racers, resources) && i < |run|
    ensures RaceInv(run[0], run[i], racers)
  {
    if i == 0 {
      forall p | p in racers ensures RacerOk(run[0], run[0], run[0].procs[p], run[0].procs[p]) {
        assert AtStart(run[0], run[0].procs[p], resources);
        assert ProcessOk(run[0].rows, run[0].history, run[0].procs[p]);
      }
    } else {
      RaceOk(run, racers, resources, i - 1);
      assert RaceStep(run[i - 1], run[i - 1 + 1], racers);
      RaceStepOk(run[0], run[i - 1], run[i], racers);
    }
  }

  // --- the outcome ---------------------------------------------------------------------

  ghost function Winners(s: State, racers: set<nat>): set<nat> {
    set p | p in racers && p in s.procs && s.procs[p].Reserved?
  }

  ghost predicate Over(s: State, racers: set<nat>) {
    forall p | p in racers :: p in s.procs && (s.procs[p].Reserved? || s.procs[p].Refused?)
  }

  /** Two winners on one resource would be a double booking. */
  lemma WinnersOnDistinctResources(s0: State, s: State, racers: set<nat>, resources: set<Id>, p: nat, r: nat)
    requires RaceStart(s0, racers, resources) && RaceInv(s0, s, racers)
    requires p in Winners(s, racers) && r in Winners(s, racers) && p != r
    ensures s.procs[p].booking < |s.rows| && s.procs[r].booking < |s.rows|
    ensures s.rows[s.procs[p].booking].resource != s.rows[s.procs[r].booking].resource
  {
    var q1, q2 := s.procs[p], s.procs[r];
    assert Apart(q1, q2);
    assert RacerOk(s0, s, s0.procs[p], q1) && RacerOk(s0, s, s0.procs[r], q2);
    var a := if q1.booking < q2.booking then q1.booking else q2.booking;
    var b := if q1.booking < q2.booking then q2.booking else q1.booking;
    assert !Conflict(s.rows[a], s.rows[b]);
  }

  lemma WinnerRow(s0: State, s: State, racers: set<nat>, resources: set<Id>, p: nat)
    requires RaceStart(s0, racers, resources) && RaceInv(s0, s, racers) && p in Winners(s, racers)
    ensures s.procs[p].booking < |s.rows| && s.rows[s.procs[p].booking].resource in resources
  {
    assert RacerOk(s0, s, s0.procs[p], s.procs[p]) && AtStart(s0, s0.procs[p], resources);
  }

  /** Each of these processes holds a booking on one of the resources, no two on the same one. */
  ghost predicate DistinctHomes(s: State, winners: set<nat>, resources: set<Id>) {
    && (forall p | p in winners :: p in s.procs && s.procs[p].Reserved? && s.procs[p].booking < |s.rows|
                                   && s.rows[s.procs[p].booking].resource in resources)
    && (forall p, r | p in winners && r in winners && p != r ::
          s.rows[s.procs[p].booking].resource != s.rows[s.procs[r].booking].resource)
  }

  lemma WinnersHaveHomes(s0: State, s: State, racers: set<nat>, resources: set<Id>)
    requires RaceStart(s0, racers, resources) && RaceInv(s0, s, racers)
    ensures DistinctHomes(s, Winners(s, racers), resources)
  {
    forall p | p in Winners(s, racers)
      ensures s.procs[p].booking < |s.rows| && s.rows[s.procs[p].booking].resource in resources
    {
      WinnerRow(s0, s, racers, resources, p);
    }
    forall p, r | p in Winners(s, racers) && r in Winners(s, racers) && p != r
      ensures s.rows[s.procs[p].booking].resource != s.rows[s.procs[r].booking].resource
    {
      WinnersOnDistinctResources(s0, s, racers, resources, p, r);
    }
  }

  /** No more winners than resources. */
  lemma WinnersFit(s: State, winners: set<nat>, resources: set<Id>)
    requires DistinctHomes(s, winners, resources)
    ensures |winners| <= |resources|
  {
    var m := map p | p in winners :: s.rows[s.procs[p].booking].resource;
    InjectionBound(m, resources);
    assert m.Keys == winners;
  }

  /** A booking in the way was there before the race, or is a racer's. */
  lemma OldOrNew(s0: State, s: State, racers: set<nat>, b: nat, r: Id, from: int, to: int)
    requires RaceInv(s0, s, racers)
    requires b < |s.rows| && s.rows[b].Active() && s.rows[b].resource == r && s.rows[b].Meets(from, to)
    ensures Occupied(s0.rows, r, from, to) || (|s0.rows| <= b && HasOwner(s, racers, b))
  {
    if b < |s0.rows| {
      assert SameOccupancy(s.rows[b], s0.rows[b]);
    }
  }

  /** The racer holding resource r in the way of a refused racer. */
  lemma HolderOf(s0: State, s: State, racers: set<nat>, resources: set<Id>, loser: nat, r: Id) returns (holder: nat)
    requires RaceStart(s0, racers, resources) && RaceInv(s0, s, racers)
    requires loser in racers && s.procs[loser].Refused? && r in resources
    ensures holder in Winners(s, racers) && s.procs[holder].booking < |s.rows|
        && s.rows[s.procs[holder].booking].resource == r
  {
    var d := s0.procs[loser].demand;
    assert RacerOk(s0, s, s0.procs[loser], s.procs[loser]) && AtStart(s0, s0.procs[loser], resources);
    var j :| 0 <= j < |d.candidates| && d.candidates[j] == r;
    assert Occupied(s.rows, d.candidates[j], d.start, d.end);
    var b :| 0 <= b < |s.rows| && s.rows[b].Active() && s.rows[b].resource == r && s.rows[b].Meets(d.start, d.end);
    OldOrNew(s0, s, racers, b, r, d.start, d.end);
    holder :| holder in racers && holder in s.procs && s.procs[holder].Reserved? && s.procs[holder].booking == b;
  }

  lemma LoserMeansAllHeld(s0: State, s: State, racers: set<nat>, resources: set<Id>, loser: nat)
    requires RaceStart(s0, racers, resources) && RaceInv(s0, s, racers)
    requires loser in racers && s.procs[loser].Refused?
    ensures |resources| <= |Winners(s, racers)|
  {
    var m: map<Id, nat> := Holders(s0, s, racers, resources, resources, loser);
    InjectionBound(m, Winners(s, racers));
    assert m.Keys == resources;
  }

  lemma {:induction false} Holders(s0: State, s: State, racers: set<nat>, resources: set<Id>, some: set<Id>, loser: nat)
    returns (m: map<Id, nat>)
    requires RaceStart(s0, racers, resources) && RaceInv(s0, s, racers)
    requires loser in racers && s.procs[loser].Refused? && some <= resources
    ensures m.Keys == some && Injective(m) && m.Values <= Winners(s, racers)
    ensures forall r | r in m :: m[r] in s.procs && s.procs[m[r]].Reserved? && s.procs[m[r]].booking < |s.rows|
                                 && s.rows[s.procs[m[r]].booking].resource == r
    decreases some
  {
    if some == {} {
      m := map[];
    } else {
      assert exists r :: r in some;
      var r :| r in some;
      var rest := Holders(s0, s, racers, resources, some - {r}, loser);
      var holder := HolderOf(s0, s, racers, resources, loser, r);
      m := rest[r := holder];
      assert m.Keys == some;
    }
  }

  /** When N requests race for pairwise meeting intervals over the same K free resources, in any
      interleaving exactly min(N, K) succeed, on distinct resources, and all others end in
      SLOT_TAKEN. */
  lemma ExactlyMinWin(run: seq<State>, racers: set<nat>, resources: set<Id>)
    requires Race(run, racers, resources) && Over(run[|run| - 1], racers)
    ensures var s := run[|run| - 1];
            && |Winners(s, racers)| == (if |racers| < |resources| then |racers| else |resources|)
            && DistinctHomes(s, Winners(s, racers), resources)
            && forall p | p in racers && p !in Winners(s, racers) :: s.procs[p].Refused?
  {
    var s0, s := run[0], run[|run| - 1];
    var winners := Winners(s, racers);
    RaceOk(run, racers, resources, |run| - 1);
    WinnersHaveHomes(s0, s, racers, resources);
    WinnersFit(s, winners, resources);
    SubsetSize(winners, racers);
    if winners != racers {
      var loser :| loser in racers && loser !in winners;
      LoserMeansAllHeld(s0, s, racers, resources, loser);
    }
  }

  // --- what a refusal means in any interleaving ------------------------------------------

  /** The step from s to s' puts candidate c of process p's demand behind it: an active booking met
      the interval at that moment, or the last attempt of the budget deadlocked. */
  ghost predicate GaveUp(s: State, s': State, p: nat, d: Demand, c: int) {
    && p in s.procs && s.procs[p].Trying? && s.procs[p].demand == d && s.procs[p].index == c
    && 0 <= c < |d.candidates|
    && ((Step(s, s', p, Exclude) && Occupied(s.rows, d.candidates[c], d.start, d.end))
        || (Step(s, s', p, Retry) && s.procs[p].attempt == MAX_ATTEMPTS - 1))
  }

  /** Some step before state i did. */
  ghost predicate GivenUpBefore(run: seq<State>, i: int, p: nat, d: Demand, c: int) {
    exists j :: 0 <= j < i && j < |run| - 1 && GaveUp(run[j], run[j + 1], p, d, c)
  }

  /** The candidates a process has put behind it. */
  function Behind(q: Process): nat {
    match q
    case Trying(_, index, _, _) => index
    case Refused(d, _) => |d.candidates|
    case _ => 0
  }

  ghost predicate WasBehind(s: State, p: nat, d: Demand, c: int) {
    p in s.procs && (s.procs[p].Trying? || s.procs[p].Refused?) && c < Behind(s.procs[p]) && s.procs[p].demand == d
  }

  lemma StepPutsBehind(s: State, s': State, p: nat, c: nat)
    requires Inv(s) && SomeStep(s, s') && p in s'.procs && c < Behind(s'.procs[p])
    ensures WasBehind(s, p, s'.procs[p].demand, c) || GaveUp(s, s', p, s'.procs[p].demand, c)
  {
    var actor, kind :| Step(s, s', actor, kind);
    if actor != p {
      assert s'.procs[p] == s.procs[p];
    } else if kind != Arrive {
      assert ProcessOk(s.rows, s.history, s.procs[p]);
      ActorPutsBehind(s, s', p, kind, c);
    }
  }

  lemma ActorPutsBehind(s: State, s': State, p: nat, kind: Kind, c: nat)
    requires Step(s, s', p, kind) && kind != Arrive && p in s'.procs && c < Behind(s'.procs[p])
    requires s.procs[p].Trying? ==>
               s.procs[p].index < |s.procs[p].demand.candidates| && s.procs[p].attempt < MAX_ATTEMPTS
    ensures WasBehind(s, p, s'.procs[p].demand, c) || GaveUp(s, s', p, s'.procs[p].demand, c)
  {
    assert kind == Exclude || kind == Retry;
    var q, q' := s.procs[p], s'.procs[p];
    assert Behind(q') == q.index || Behind(q') == q.index + 1;
  }

  /** In every run, each candidate behind a reservation was occupied at the step it was tried, or
      was given up by a deadlock on the last attempt. */
  lemma {:induction false} GivenUpForAReason(run: seq<State>, i: nat, p: nat, c: nat)
    requires Run(run) && i < |run| && p in run[i].procs && c < Behind(run[i].procs[p])
    ensures GivenUpBefore(run, i, p, run[i].procs[p].demand, c)
  {
    if i > 0 {
      RunOk(run, i - 1);
      assert SomeStep(run[i - 1], run[i - 1 + 1]);
      StepPutsBehind(run[i - 1], run[i], p, c);
      if WasBehind(run[i - 1], p, run[i].procs[p].demand, c) {
        GivenUpForAReason(run, i - 1, p, c);
      } else {
        assert GaveUp(run[i - 1], run[i - 1 + 1], p, run[i].procs[p].demand, c);
      }
    }
  }

  /** So SLOT_TAKEN is genuine for every candidate, at the moment it was tried, unless its last
      attempt was lost to a deadlock. */
  lemma RefusedForAReason(run: seq<State>, i: nat, p: nat)
    requires Run(run) && i < |run| && p in run[i].procs && run[i].procs[p].Refused?
    ensures var d := run[i].procs[p].demand;
            forall c | 0 <= c < |d.candidates| :: GivenUpBefore(run, i, p, d, c)
  {
    forall c | 0 <= c < |run[i].procs[p].demand.candidates|
      ensures GivenUpBefore(run, i, p, run[i].procs[p].demand, c)
    {
      GivenUpForAReason(run, i, p, c);
    }
  }

  /** The budget matters: a request that deadlocks three times on its only candidate is refused
      although nothing at all is booked. */
  lemma ExhaustedBudgetRefusesAFreeSlot(r: Id, start: int, end: int)
    requires start < end
    ensures var d := Demand([r], start, end, Pending);
            var s := State([], [], map[0 := Refused(d, MAX_ATTEMPTS)]);
            Run(DeadlockedRun(d)) && DeadlockedRun(d)[4] == s && MayInsert(s.rows, d.RowOn(0))
  {
    var d := Demand([r], start, end, Pending);
    var run := DeadlockedRun(d);
    assert Step(run[0], run[1], 0, Arrive);
    assert Step(run[1], run[2], 0, Retry);
    assert Step(run[2], run[3], 0, Retry);
    assert Step(run[3], run[4], 0, Retry);
    forall i | 0 <= i < |run| - 1 ensures SomeStep(run[i], run[i + 1]) {
      assert i == 0 || i == 1 || i == 2 || i == 3;
    }
  }

  function DeadlockedRun(d: Demand): (run: seq<State>)
    ensures |run| == 5
  {
    [State([], [], map[])]
    + seq(3, i requires 0 <= i < 3 => State([], [], map[0 := Trying(d, 0, i, i)]))
    + [State([], [], map[0 := Refused(d, MAX_ATTEMPTS)])]
  }

  lemma SubsetSize(a: set<nat>, b: set<nat>)
    requires a <= b
    ensures |a| <= |b|
    ensures a == b || exists x :: x in b && x !in a
  {
    assert b == a + (b - a);
  }
}
