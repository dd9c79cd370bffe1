/** migrations/00007_bookings.sql and internal/db/query/bookings.sql: the bookings table.

    Rows are never deleted, so a booking's id is its position. */
module Bookings {
  import opened Wrappers
  import opened Counting
  import opened Windows
  import opened Slots
  import opened Lifecycle

  // Insert transactions spent on one resource before moving to the next.
  const MAX_ATTEMPTS := 3

  datatype Actor = Customer | Provider

  datatype Row = Row(resource: Id, start: int, end: int, status: Status, cancelledBy: Option<Actor>)
  {
    predicate Active() {
      IsActive(status)
    }

    // `tstzrange(starts_at, ends_at) && ...` on half-open ranges
    predicate Meets(from: int, to: int) {
      start < to && from < end
    }

    predicate Sound() {
      start < end && cancelledBy == Canceller(status)
    }
  }

  function Canceller(status: Status): Option<Actor> {
    match status
    case CancelledByCustomer => Some(Customer)
    case CancelledByProvider => Some(Provider)
    case _ => None
  }

  /** What `bookings_no_overlap` forbids of two rows. */
  predicate Conflict(a: Row, b: Row) {
    a.Active() && b.Active() && a.resource == b.resource && a.Meets(b.start, b.end)
  }

  ghost predicate NoOverlap(rows: seq<Row>) {
    forall i, j | 0 <= i < j < |rows| :: !Conflict(rows[i], rows[j])
  }

  ghost predicate ValidTable(rows: seq<Row>) {
    NoOverlap(rows) && forall i | 0 <= i < |rows| :: rows[i].Sound()
  }

  /** An active booking on r meets [from, to). */
  ghost predicate Occupied(rows: seq<Row>, r: Id, from: int, to: int) {
    exists i :: 0 <= i < |rows| && rows[i].Active() && rows[i].resource == r && rows[i].Meets(from, to)
  }

  datatype DbError = CheckViolation | ExclusionViolation | Retryable

  /** `CreateBooking` with `bookings_ends_after_starts` and `bookings_no_overlap` in force. */
  ghost predicate MayInsert(rows: seq<Row>, row: Row) {
    row.start < row.end && forall i | 0 <= i < |rows| :: !Conflict(rows[i], row)
  }

  /** `TransitionBooking`: guarded on the status it was read with. */
  function Moved(row: Row, to: Status): Row {
    row.(status := to, cancelledBy := Canceller(to))
  }

  lemma InsertKeepsValid(rows: seq<Row>, row: Row)
    requires ValidTable(rows) && MayInsert(rows, row) && row.Sound()
    ensures ValidTable(rows + [row])
  {
  }

  /** Moving a booking along the graph can never trip the exclusion constraint: the row it
      rewrites was active already, or is active no longer. */
  lemma MoveKeepsValid(rows: seq<Row>, id: nat, event: Event)
    requires ValidTable(rows) && id < |rows| && Next(rows[id].status, event).Some?
    ensures ValidTable(rows[id := Moved(rows[id], Next(rows[id].status, event).value)])
  {
    TransitionsClimb(rows[id].status, event);
  }

  // --- capacity ------------------------------------------------------------------

  /** The active bookings on the resources rs in progress at instant t. */
  ghost function Covering(rows: seq<Row>, rs: set<Id>, t: int): set<int> {
    set i | 0 <= i < |rows| && rows[i].Active() && rows[i].resource in rs && rows[i].start <= t < rows[i].end
  }

  /** At any instant at most K active bookings cover any K resources. */
  lemma CapacityBound(rows: seq<Row>, rs: set<Id>, t: int)
    requires NoOverlap(rows)
    ensures |Covering(rows, rs, t)| <= |rs|
  {
    var ids := Covering(rows, rs, t);
    var m := map i | i in ids :: rows[i].resource;
    forall i, j | i in m && j in m && i != j ensures m[i] != m[j] {
      if m[i] == m[j] {
        assert false by {
          var lo, hi := if i < j then i else j, if i < j then j else i;
          assert Conflict(rows[lo], rows[hi]);
        }
      }
    }
    assert m.Keys == ids;
    InjectionBound(m, rs);
    assert |m| == |m.Keys|;
  }

  // --- ListBusyIntervals ---------------------------------------------------------

  predicate BusyRow(row: Row, ids: seq<Id>, from: int, to: int) {
    row.resource in ids && row.Active() && row.start < to && row.end > from
  }

  /** The active rows of these resources that meet the window. The query's ORDER BY is
      immaterial: slot generation does not depend on the order of busy intervals. */
  function ListBusyIntervals(rows: seq<Row>, ids: seq<Id>, from: int, to: int): (busy: seq<BusyInterval>)
    ensures forall b :: b in busy <==>
              exists i :: 0 <= i < |rows| && BusyRow(rows[i], ids, from, to)
                  && b == BusyInterval(rows[i].resource, rows[i].start, rows[i].end)
  {
    if rows == [] then []
    else
      var last := rows[|rows| - 1];
      var init := ListBusyIntervals(rows[..|rows| - 1], ids, from, to);
      if BusyRow(last, ids, from, to) then init + [BusyInterval(last.resource, last.start, last.end)] else init
  }
}
