/** internal/booking/service.go, Create from end to end: attributes, quote, slot, insert, cache. */
module Creation {
  import opened Wrappers
  import opened Pricing
  import opened Attributes
  import opened Cache
  import opened Occupancy
  import Calendar
  import Lifecycle
  import Slots
  import Scheduler
  import Bookings
  import opened Reservations

  datatype Service = Service(
    provider: string, isActive: bool, providerActive: bool, instant: bool, bufferMinutes: Int32, minLeadMinutes: int,
    price: ServicePrice, groups: seq<Group>, attributes: seq<Attribute>)
  {
    /** What availability reads of a service with these options. */
    function With(quote: Quote): Scheduler.ServiceInfo {
      Scheduler.ServiceInfo(isActive, providerActive, quote.minutes, bufferMinutes, minLeadMinutes)
    }
  }

  /** What a caller sends; no start is Go's zero time. */
  datatype Order = Order(startsAt: Option<int>, chosen: seq<string>, values: map<string, Value>, wanted: Option<string>)

  datatype Receipt = Receipt(id: nat, quote: Quote, attributes: map<string, Value>)

  datatype CreateError =
    | StartMissing
    | BadAttributes(problems: map<string, Problem>)
    | BadQuote(why: QuoteError)
    | NoSlot(error: Scheduler.Error)

  /** json.Marshal accepts the stored attributes. */
  predicate Encodable(stored: map<string, Value>) {
    forall key | key in stored :: RoundTrip(stored[key]).Some?
  }

  ghost predicate AttributesOk(conv: Conversions, service: Service, order: Order) {
    forall key :: !Offending(conv, service.attributes, order.values, key)
  }

  ghost function Stored(conv: Conversions, service: Service, order: Order): map<string, Value> {
    Normalized(conv, service.attributes, order.values)
  }

  ghost predicate Proceeds(conv: Conversions, service: Service, order: Order) {
    && order.startsAt.Some? && service.isActive && service.providerActive
    && AttributesOk(conv, service, order) && Encodable(Stored(conv, service, order))
    && Acceptable(service.price, service.groups, order.chosen)
  }

  /** The first check that fails names the error. */
  ghost predicate Refuses(conv: Conversions, service: Service, order: Order, error: CreateError) {
    if order.startsAt.None? then error == StartMissing
    else if !service.isActive then error == NoSlot(Scheduler.ServiceInactive)
    else if !service.providerActive then error == NoSlot(Scheduler.ProviderInactive)
    else if !AttributesOk(conv, service, order) then
      && error.BadAttributes?
      && forall key :: key in error.problems <==> Offending(conv, service.attributes, order.values, key)
    else if !Encodable(Stored(conv, service, order)) then error == NoSlot(Scheduler.InternalError)
    else error.BadQuote? && RightError(service.price, service.groups, order.chosen, error.why)
  }

  ghost function QuoteFor(service: Service, order: Order): Quote
    requires Acceptable(service.price, service.groups, order.chosen)
  {
    QuoteOf(service.price, Chosen(Tree(service.groups), order.chosen))
  }

  /** The answer without what is sent back on success. */
  ghost predicate SameAnswer(r: Result<Receipt, CreateError>, inner: Result<nat, Scheduler.Error>) {
    if inner.Success? then r.Success? && r.value.id == inner.value else r == Failure(NoSlot(inner.error))
  }

  /** What an order that passed every check on the catalogue comes to. */
  ghost predicate Settled(db: Scheduler.Tables, service: Service, order: Order, now: int,
                          r: Result<Receipt, CreateError>,
                          after: seq<Bookings.Row>)
    requires order.startsAt.Some? && Acceptable(service.price, service.groups, order.chosen)
  {
    var t := Scheduler.Truncate(order.startsAt.value);
    var req := Scheduler.DayRequest(db, service.With(QuoteFor(service, order)), t, now, true);
    exists inner: Result<nat, Scheduler.Error> ::
      SameAnswer(r, inner) && Reserved(req, t, order.wanted, service.instant, db.bookings, inner, after)
  }

  /** The row of an order: to the second the start asked for, not inside the lead time, on a resource
      of the service and on the one asked for, for as long as the service, the chosen options and
      the buffer take. */
  ghost predicate RowIsRight(db: Scheduler.Tables, service: Service, order: Order, now: int, row: Bookings.Row)
    requires order.startsAt.Some? && Acceptable(service.price, service.groups, order.chosen)
  {
    var options := Chosen(Tree(service.groups), order.chosen);
    var minutes := service.price.minutes + SumMinutes(options) + service.bufferMinutes;
    && row.start <= order.startsAt.value < row.start + 1_000_000_000 && row.start % 1_000_000_000 == 0
    && now + service.minLeadMinutes * 60_000_000_000 <= row.start
    && (-153_722_867 <= minutes <= 153_722_867 ==> row.end - row.start == minutes * 60_000_000_000)
    && row.resource in db.resources && (order.wanted.Some? ==> row.resource == order.wanted.value)
    && row.status == (if service.instant then Lifecycle.Confirmed else Lifecycle.Pending) && row.cancelledBy.None?
  }

  /** The checks Create makes on the catalogue alone. */
  method CheckOrder(conv: Conversions, service: Service, order: Order)
    returns (r: Result<(Quote, map<string, Value>), CreateError>)
    ensures r.Success? <==> Proceeds(conv, service, order)
    ensures r.Success? ==> r.value == (QuoteFor(service, order), Stored(conv, service, order))
    ensures r.Failure? ==> Refuses(conv, service, order, r.error)
    ensures r.Success? ==> forall key | key in r.value.1 :: RoundTrip(r.value.1[key]).Some?
  {
    if order.startsAt.None? {
      return Failure(StartMissing);
    }
    if !service.isActive {
      return Failure(NoSlot(Scheduler.ServiceInactive));
    }
    if !service.providerActive {
      return Failure(NoSlot(Scheduler.ProviderInactive));
    }
    var attributes := ValidateAttributes(conv, service.attributes, order.values);
    if attributes.Failure? {
      return Failure(BadAttributes(attributes.error));
    }
    if !Encodable(attributes.value) {
      return Failure(NoSlot(Scheduler.InternalError));
    }
    var quote := BuildQuote(service.price, service.groups, order.chosen);
    if quote.Failure? {
      return Failure(BadQuote(quote.error));
    }
    return Success((quote.value, attributes.value));
  }

  /** A booking that was made drops the provider's cached availability. */
  method Drop(cache: AvailabilityCache, ghost table: BookingTable, provider: string, made: bool)
    requires cache.Valid() && table.Valid()
    modifies cache
    ensures cache.Valid() && table.Valid() && table.rows == old(table.rows)
    ensures cache.history == old(cache.history) + if made then [Invalidate(provider)] else []
  {
    if made {
      cache.InvalidateProvider(provider);
    }
  }

  /** The rest: the slot, the row and the cache. */
  method Place(table: BookingTable, cache: AvailabilityCache, db: Scheduler.Tables, service: Service, order: Order,
               quote: Quote, attributes: map<string, Value>, now: int, faults: nat -> nat -> Fault)
    returns (r: Result<Receipt, CreateError>)
    requires Scheduler.ValidTables(db) && table.rows == db.bookings && cache.Valid()
    requires order.startsAt.Some? && service.isActive && service.providerActive
    requires Acceptable(service.price, service.groups, order.chosen) && quote == QuoteFor(service, order)
    modifies table, cache
    ensures table.Valid() && cache.Valid()
    ensures cache.history == old(cache.history) + if r.Success? then [Invalidate(service.provider)] else []
    ensures Settled(db, service, order, now, r, table.rows)
    ensures r.Success? ==> r.value.quote == quote && r.value.attributes == attributes
    ensures r.Failure? ==> table.rows == db.bookings
    ensures r.Success? ==> r.value.id == |db.bookings| && |table.rows| == r.value.id + 1
                           && table.rows[..r.value.id] == db.bookings
    ensures r.Success? ==> RowIsRight(db, service, order, now, table.rows[r.value.id])
    ensures TooSoon(service, order.startsAt.value, now) ==> r == Failure(NoSlot(Scheduler.OutsideHours))
  {
    var inner := Reservations.Create(table, db, service.With(quote), order.startsAt.value, order.wanted,
                                     service.instant, now, faults);
    r := if inner.Failure? then Failure(NoSlot(inner.error)) else Success(Receipt(inner.value, quote, attributes));
    ghost var rows := table.rows;
    Settles(db, service, order, now, inner, r, rows);
    Drop(cache, table, service.provider, r.Success?);
  }

  /** The quote and the attributes of a booking come from the catalogue, and only a booking that
      was made touches the table or the cache. */
  method Create(table: BookingTable, cache: AvailabilityCache, db: Scheduler.Tables, conv: Conversions,
                service: Service, order: Order, now: int, faults: nat -> nat -> Fault)
    returns (r: Result<Receipt, CreateError>)
    requires Scheduler.ValidTables(db) && table.rows == db.bookings && cache.Valid()
    modifies table, cache
    ensures table.Valid() && cache.Valid()
    ensures !Proceeds(conv, service, order) ==> r.Failure? && Refuses(conv, service, order, r.error)
    ensures Proceeds(conv, service, order) ==> Settled(db, service, order, now, r, table.rows)
    ensures r.Success?
        ==> r.value.quote == QuoteFor(service, order) && r.value.attributes == Stored(conv, service, order)
    ensures r.Failure? ==> table.rows == db.bookings
    // of the row that is made, in terms of the service and the order alone
    ensures r.Success? ==> r.value.id == |db.bookings| && |table.rows| == r.value.id + 1
                           && table.rows[..r.value.id] == db.bookings
    ensures r.Success? ==> RowIsRight(db, service, order, now, table.rows[r.value.id])
    ensures Proceeds(conv, service, order) && TooSoon(service, order.startsAt.value, now) ==>
              r == Failure(NoSlot(Scheduler.OutsideHours))
    ensures cache.history == old(cache.history) + if r.Success? then [Invalidate(service.provider)] else []
  {
    var checked := CheckOrder(conv, service, order);
    if checked.Failure? {
      return Failure(checked.error);
    }
    r := Place(table, cache, db, service, order, checked.value.0, checked.value.1, now, faults);
  }

  /** The start, to the second, lies inside the lead time. */
  predicate TooSoon(service: Service, startsAt: int, now: int) {
    startsAt - startsAt % 1_000_000_000 < now + service.minLeadMinutes * 60_000_000_000
  }

  /** What the answer of the reservation says of the answer of Create. */
  lemma Settles(db: Scheduler.Tables, service: Service, order: Order, now: int, inner: Result<nat, Scheduler.Error>,
                r: Result<Receipt, CreateError>, after: seq<Bookings.Row>)
    requires Scheduler.ValidTables(db) && order.startsAt.Some?
    requires Acceptable(service.price, service.groups, order.chosen) && SameAnswer(r, inner)
    requires var t := Scheduler.Truncate(order.startsAt.value);
             Reserved(Scheduler.DayRequest(db, service.With(QuoteFor(service, order)), t, now, true), t, order.wanted,
                      service.instant, db.bookings, inner, after)
    ensures Settled(db, service, order, now, r, after)
    ensures r.Failure? ==> after == db.bookings
    ensures r.Success? ==> r.value.id == |db.bookings| && |after| == r.value.id + 1
                           && after[..r.value.id] == db.bookings
    ensures r.Success? ==> RowIsRight(db, service, order, now, after[r.value.id])
    ensures TooSoon(service, order.startsAt.value, now) ==> r == Failure(NoSlot(Scheduler.OutsideHours))
  {
    if r.Success? { SettledRow(db, service, order, now, r, after); }
    SettledTooSoon(db, service, order, now, r, after);
  }

  lemma SettledRow(db: Scheduler.Tables, service: Service, order: Order, now: int, r: Result<Receipt, CreateError>,
                   after: seq<Bookings.Row>)
    requires Scheduler.ValidTables(db) && order.startsAt.Some?
    requires Acceptable(service.price, service.groups, order.chosen)
    requires Settled(db, service, order, now, r, after) && r.Success?
    ensures r.value.id == |db.bookings| && |after| == r.value.id + 1 && after[..r.value.id] == db.bookings
    ensures RowIsRight(db, service, order, now, after[r.value.id])
  {
    var t := Scheduler.Truncate(order.startsAt.value);
    var info := service.With(QuoteFor(service, order));
    var req := Scheduler.DayRequest(db, info, t, now, true);
    var inner: Result<nat, Scheduler.Error> :|
      SameAnswer(r, inner) && Reserved(req, t, order.wanted, service.instant, db.bookings, inner, after);
    var row := after[r.value.id];
    Scheduler.FreeIsOpenAndLate(req, t, row.resource);
    FreeIsListed(db, info, t, now, row.resource);
    OccupiedTime(service.price, Chosen(Tree(service.groups), order.chosen), service.bufferMinutes);
  }

  lemma FreeIsListed(db: Scheduler.Tables, info: Scheduler.ServiceInfo, t: int, now: int, r: string)
    requires Scheduler.ValidTables(db) && Scheduler.DayRequest(db, info, t, now, true).Free(t, r)
    ensures r in db.resources
  {
    var req := Scheduler.DayRequest(db, info, t, now, true);
    var w :| w in req.windows && w.resource == r && req.OnGrid(w, t);
    Scheduler.WindowsStayInDay(db, t, w);
  }

  lemma SettledTooSoon(db: Scheduler.Tables, service: Service, order: Order, now: int,
                       r: Result<Receipt, CreateError>, after: seq<Bookings.Row>)
    requires order.startsAt.Some? && Acceptable(service.price, service.groups, order.chosen)
    requires Settled(db, service, order, now, r, after)
    ensures TooSoon(service, order.startsAt.value, now) ==> r == Failure(NoSlot(Scheduler.OutsideHours))
  {
    var t := Scheduler.Truncate(order.startsAt.value);
    var req := Scheduler.DayRequest(db, service.With(QuoteFor(service, order)), t, now, true);
    if req.Open(t) { OpenIsLate(req, t); }
  }

  lemma OpenIsLate(req: Slots.SlotRequest, t: int)
    requires req.Open(t)
    ensures req.earliest <= t
  {
    var w :| w in req.windows && req.OnGrid(w, t);
    assert exists k :: 0 <= k && req.GridPoint(w, k, t);
  }
}
