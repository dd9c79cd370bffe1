/** internal/scheduling/service.go: browsing goes through the cache, booking never does
    (Reservations.Create reads DaySlots directly). */
module Browsing {
  import opened Wrappers
  import opened Slots
  import opened Scheduler
  import opened CacheKeys
  import opened Cache

  /** `Availability`: the live cached list if there is one, otherwise a fresh list, which is
      remembered unless the day has no resource or no window. */
  method Availability(cache: AvailabilityCache, db: Tables, service: ServiceInfo, serviceID: Uuid, provider: Uuid,
                      date: int, dateText: Date, options: seq<Uuid>, now: int, stored: int, swept: int)
    returns (r: Result<seq<Slot>, Error>)
    requires ValidTables(db) && cache.Valid() && cache.clock <= now <= stored <= swept
        && provider == cache.owner(serviceID)
    modifies cache
    ensures cache.Valid()
    ensures Unbookable(service).Some? ==> r == Failure(Unbookable(service).value) && cache.history == old(cache.history)
    ensures Unbookable(service).None? ==>
              var key := KeyOf(serviceID, dateText, options);
              var live := Live(old(cache.history), key);
              if live.Some? && now <= live.value.expiresAt then
                r == Success(live.value.slots) && cache.history == old(cache.history)
              else
                && r.Success? && IsSlotList(DayRequest(db, service, date, now, false), r.value)
                && cache.history == old(cache.history)
                   + (if DayWindows(db, date) == [] then []
                      else [Op.Put(key, Entry(r.value, provider, stored + cache.ttl))])
  {
    if Unbookable(service).Some? {
      return Failure(Unbookable(service).value);
    }
    var cached := cache.Get(serviceID, dateText, options, now);
    if cached.Some? {
      return Success(cached.value);
    }
    r := DaySlots(db, service, date, now, false);
    var windows := DayWindows(db, date);
    if |windows| > 0 {
      cache.Put(serviceID, dateText, options, provider, r.value, stored, swept);
    }
  }
}
