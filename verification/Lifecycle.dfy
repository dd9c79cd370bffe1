/** internal/booking/state.go: the booking status machine, kept as data. */
module Lifecycle {
  import opened Wrappers

  // The status domain of the CHECK constraint on bookings.status.
  datatype Status = Pending | Confirmed | InProgress | Completed | CancelledByCustomer | CancelledByProvider | NoShow

  datatype Event = Confirm | Start | Complete | NotShown | CancelAsCustomer | CancelAsProvider

  const TRANSITIONS: map<Status, map<Event, Status>> := map[
    Pending := map[
      Confirm := Confirmed,
      CancelAsCustomer := CancelledByCustomer,
      CancelAsProvider := CancelledByProvider],
    Confirmed := map[
      Start := InProgress,
      NotShown := NoShow,
      CancelAsCustomer := CancelledByCustomer,
      CancelAsProvider := CancelledByProvider],
    InProgress := map[
      Complete := Completed,
      CancelAsProvider := CancelledByProvider]]

  const ACTIVE_STATUSES: set<Status> := {Pending, Confirmed, InProgress}

  /** The status the event moves to; None is INVALID_TRANSITION. */
  function Next(from: Status, event: Event): Option<Status> {
    if from !in TRANSITIONS then None
    else if event !in TRANSITIONS[from] then None
    else Some(TRANSITIONS[from][event])
  }

  predicate IsTerminal(status: Status) {
    status !in TRANSITIONS
  }

  predicate IsActive(status: Status) {
    status in ACTIVE_STATUSES
  }

  /** Exactly which events each status accepts, and where each leads. */
  lemma NextExactly(from: Status)
    ensures Next(from, Confirm) == if from == Pending then Some(Confirmed) else None
    ensures Next(from, Start) == if from == Confirmed then Some(InProgress) else None
    ensures Next(from, NotShown) == if from == Confirmed then Some(NoShow) else None
    ensures Next(from, Complete) == if from == InProgress then Some(Completed) else None
    ensures Next(from, CancelAsCustomer) == if from == Pending || from == Confirmed
                                            then Some(CancelledByCustomer) else None
    ensures Next(from, CancelAsProvider) == if from == Pending || from == Confirmed || from == InProgress
                                            then Some(CancelledByProvider) else None
    ensures IsActive(from) <==> from == Pending || from == Confirmed || from == InProgress
  {
  }

  /** How far along a status is. */
  function Rank(status: Status): (r: int)
    ensures 0 <= r <= 3
  {
    match status
    case Pending => 0
    case Confirmed => 1
    case InProgress => 2
    case _ => 3
  }

  lemma TransitionsClimb(from: Status, event: Event)
    requires Next(from, event).Some?
    ensures Rank(from) < Rank(Next(from, event).value)
    ensures IsActive(from)
  {
  }

  /** A status is terminal exactly when it accepts no event, and occupies its resource exactly
      when it is not terminal. */
  lemma TerminalMeansDone(status: Status)
    ensures IsTerminal(status) <==> forall e :: Next(status, e).None?
    ensures IsActive(status) <==> !IsTerminal(status)
  {
    if !IsTerminal(status) {
      assert Next(status, CancelAsProvider).Some?;
    }
  }

  /** h is a path in the transition graph. */
  ghost predicate IsPath(h: seq<Status>) {
    h != [] && forall i | 0 <= i < |h| - 1 :: Follows(h[i], h[i + 1])
  }

  ghost predicate Follows(from: Status, to: Status) {
    exists e :: Next(from, e) == Some(to)
  }

  lemma {:induction false} PathRanks(h: seq<Status>, i: int, j: int)
    requires IsPath(h) && 0 <= i < j < |h|
    ensures Rank(h[i]) + (j - i) <= Rank(h[j])
  {
    assert Follows(h[j - 1], h[j]);
    var e :| Next(h[j - 1], e) == Some(h[j]);
    TransitionsClimb(h[j - 1], e);
    if i < j - 1 {
      PathRanks(h, i, j - 1);
    }
  }

  /** A history has at most three steps, never repeats a status, and once it has left the
      active statuses it never comes back. */
  lemma HistoriesAreShort(h: seq<Status>)
    requires IsPath(h)
    ensures |h| <= 4
    ensures forall i, j | 0 <= i < j < |h| :: h[i] != h[j]
    ensures forall i | 0 <= i < |h| - 1 :: IsActive(h[i])
  {
    if |h| > 1 {
      PathRanks(h, 0, |h| - 1);
    }
    forall i, j | 0 <= i < j < |h| ensures h[i] != h[j] {
      PathRanks(h, i, j);
    }
    forall i | 0 <= i < |h| - 1 ensures IsActive(h[i]) {
      assert Follows(h[i], h[i + 1]);
    }
  }
}
