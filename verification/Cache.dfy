/** internal/scheduling/cache.go: the availability cache and the history it stands for.

    Each operation runs under the cache's lock, so operations are sequential. The clock is a
    parameter that never runs backwards. */
module Cache {
  import opened Wrappers
  import opened Calendar
  import opened Windows
  import opened Slots
  import opened CacheKeys

  datatype Entry = Entry(slots: seq<Slot>, provider: Id, expiresAt: int)

  datatype Op =
    | Put(key: string, entry: Entry)
    | Invalidate(provider: Id)

  /** The latest entry put under a key whose provider has not been invalidated since. */
  ghost function Live(history: seq<Op>, key: string): Option<Entry> {
    if history == [] then None
    else
      var before := Live(history[..|history| - 1], key);
      match history[|history| - 1]
      case Put(k, e) => if k == key then Some(e) else before
      case Invalidate(p) => if before.Some? && before.value.provider == p then None else before
  }

  lemma LiveSnoc(history: seq<Op>, op: Op)
    ensures forall key :: Live(history + [op], key) ==
              match op
              case Put(k, e) => (if k == key then Some(e) else Live(history, key))
              case Invalidate(p) => (if Live(history, key).Some? && Live(history, key).value.provider == p then None
                                     else Live(history, key))
  {
    assert (history + [op])[..|history|] == history;
  }

  ghost predicate LatestPut(history: seq<Op>, key: string, e: Entry, i: int) {
    && 0 <= i < |history| && history[i] == Put(key, e)
    && (forall j | i < j < |history| :: !(history[j].Put? && history[j].key == key))
    && (forall j | i < j < |history| :: history[j] != Invalidate(e.provider))
  }

  /** What Live means, without recursion. */
  lemma {:induction false} LiveMeans(history: seq<Op>, key: string, e: Entry)
    ensures Live(history, key) == Some(e) <==> exists i :: LatestPut(history, key, e, i)
  {
    if history != [] {
      var init := history[..|history| - 1];
      LiveMeans(init, key, e);
      if Live(history, key) == Some(e) {
        if history[|history| - 1].Put? && history[|history| - 1].key == key {
          assert LatestPut(history, key, e, |history| - 1);
        } else {
          var i :| LatestPut(init, key, e, i);
          assert LatestPut(history, key, e, i);
        }
      }
      if i :| LatestPut(history, key, e, i) {
        assert i < |init| ==> LatestPut(init, key, e, i);
      }
    }
  }

  /** `byProvider` is exactly the inverse of `entries`. */
  ghost predicate Inverse(entries: map<string, Entry>, byProvider: map<Id, set<string>>) {
    forall p, key :: (p in byProvider && key in byProvider[p]) <==> (key in entries && entries[key].provider == p)
  }

  /** The entries are the live puts of the history, minus some that have expired. */
  ghost predicate Faithful(entries: map<string, Entry>, history: seq<Op>, clock: int) {
    && (forall key | key in entries :: Live(history, key) == Some(entries[key]))
    && (forall key | key !in entries && Live(history, key).Some? :: Live(history, key).value.expiresAt < clock)
  }

  ghost predicate Owned(entries: map<string, Entry>, owner: string -> Id) {
    forall key | key in entries :: entries[key].provider == owner(ServiceOf(key))
  }

  lemma PutKeeps(entries: map<string, Entry>, byProvider: map<Id, set<string>>, history: seq<Op>, clock: int,
                 key: string, e: Entry, later: int)
    requires clock <= later && Inverse(entries, byProvider) && Faithful(entries, history, clock)
    requires key in entries ==> entries[key].provider == e.provider
    ensures Inverse(entries[key := e],
                    byProvider[e.provider := (if e.provider in byProvider then byProvider[e.provider] else {}) + {key}])
    ensures Faithful(entries[key := e], history + [Op.Put(key, e)], later)
  {
    LiveSnoc(history, Op.Put(key, e));
  }

  lemma EvictKeeps(entries: map<string, Entry>, byProvider: map<Id, set<string>>, history: seq<Op>, clock: int,
                   key: string)
    requires Inverse(entries, byProvider) && Faithful(entries, history, clock)
    requires key in entries && entries[key].expiresAt < clock
    ensures entries[key].provider in byProvider
    ensures var p := entries[key].provider; Inverse(entries - {key}, byProvider[p := byProvider[p] - {key}])
    ensures Faithful(entries - {key}, history, clock)
  {
    assert key in byProvider[entries[key].provider];
  }

  lemma InvalidateKeeps(entries: map<string, Entry>, byProvider: map<Id, set<string>>, history: seq<Op>, clock: int,
                        provider: Id)
    requires Inverse(entries, byProvider) && Faithful(entries, history, clock)
    ensures var keys := if provider in byProvider then byProvider[provider] else {};
            && (forall key :: key in keys <==> key in entries && entries[key].provider == provider)
            && Inverse(entries - keys, byProvider - {provider})
            && Faithful(entries - keys, history + [Invalidate(provider)], clock)
  {
    LiveSnoc(history, Invalidate(provider));
    var keys := if provider in byProvider then byProvider[provider] else {};
    forall p, key ensures (p in byProvider - {provider} && key in (byProvider - {provider})[p])
                     <==> (key in entries - keys && (entries - keys)[key].provider == p)
    {
      assert key in keys <==> key in entries && entries[key].provider == provider;
      assert (p in byProvider && key in byProvider[p]) <==> (key in entries && entries[key].provider == p);
    }
  }

  class AvailabilityCache {
    const ttl: int
    // each service belongs to one provider, for good
    ghost const owner: string -> Id
    var entries: map<string, Entry>
    var byProvider: map<Id, set<string>>
    ghost var history: seq<Op>
    ghost var clock: int

    ghost predicate Valid()
      reads this
    {
      Inverse(entries, byProvider) && Faithful(entries, history, clock) && Owned(entries, owner) && ttl > 0
    }

    constructor (ttl: int, ghost owner: string -> Id, ghost now: int)
      ensures Valid() && history == [] && clock == now && this.owner == owner
      ensures this.ttl == if ttl <= 0 then 60 * SECOND else ttl
    {
      this.ttl := if ttl <= 0 then 60 * SECOND else ttl;
      this.owner := owner;
      entries := map[];
      byProvider := map[];
      history := [];
      clock := now;
    }

    /** Hits iff the latest put under an equivalent key has not expired and its provider has not
        been invalidated since; then it returns that put's slots. */
    method Get(service: Uuid, date: Date, options: seq<Uuid>, now: int) returns (r: Option<seq<Slot>>)
      requires Valid() && clock <= now
      modifies `clock
      ensures Valid() && clock == now
      ensures var live := Live(history, KeyOf(service, date, options));
              r == if live.Some? && now <= live.value.expiresAt then Some(live.value.slots) else None
    {
      var key := CacheKey(service, date, options);
      clock := now;
      if key !in entries || now > entries[key].expiresAt {
        return None;
      }
      var entry := entries[key];
      return Some(entry.slots);
    }

    /** The entry is stored at `now`; expired entries are swept at `later`. */
    method Put(service: Uuid, date: Date, options: seq<Uuid>, provider: Id, slots: seq<Slot>, now: int, later: int)
      requires Valid() && clock <= now <= later && provider == owner(service)
      modifies this
      ensures Valid() && clock == later
      ensures history == old(history) + [Op.Put(KeyOf(service, date, options), Entry(slots, provider, now + ttl))]
    {
      var key := CacheKey(service, date, options);
      KeyNamesService(service, date, options);
      var entry := Entry(slots, provider, now + ttl);
      PutKeeps(entries, byProvider, history, clock, key, entry, later);
      entries := entries[key := entry];
      var keys := if provider in byProvider then byProvider[provider] else {};
      byProvider := byProvider[provider := keys + {key}];
      history := history + [Op.Put(key, entry)];
      clock := later;
      EvictExpired(later);
    }

    method EvictExpired(now: int)
      requires Valid() && now == clock
      modifies `entries, `byProvider
      ensures Valid()
      ensures forall key :: key in entries <==> key in old(entries) && now <= old(entries)[key].expiresAt
    {
      ghost var was := entries;
      var pending := entries.Keys;
      while pending != {}
        invariant Valid() && pending <= was.Keys
        invariant forall key | key in entries :: key in was && entries[key] == was[key]
        invariant forall key | key in was && (key in pending || now <= was[key].expiresAt) :: key in entries
        invariant forall key | key in entries && key !in pending :: now <= was[key].expiresAt
        decreases pending
      {
        var key := Pick(pending);
        var entry := entries[key];
        if now > entry.expiresAt {
          EvictKeeps(entries, byProvider, history, clock, key);
          entries := entries - {key};
          byProvider := byProvider[entry.provider := byProvider[entry.provider] - {key}];
        }
        pending := pending - {key};
      }
    }

    method InvalidateProvider(provider: Id)
      requires Valid()
      modifies `entries, `byProvider, `history
      ensures Valid()
      ensures history == old(history) + [Invalidate(provider)]
      ensures forall key :: key in entries <==> key in old(entries) && old(entries)[key].provider != provider
    {
      var keys := if provider in byProvider then byProvider[provider] else {};
      InvalidateKeeps(entries, byProvider, history, clock, provider);
      entries := entries - keys;
      byProvider := byProvider - {provider};
      history := history + [Invalidate(provider)];
    }
  }

  /** Order of picking does not matter to a lookup, and nothing else is confused with it. */
  lemma HitsAreShared(history: seq<Op>, s1: Uuid, d1: Date, o1: seq<Uuid>, s2: Uuid, d2: Date, o2: seq<Uuid>, e: Entry)
    requires history != [] && history[|history| - 1] == Put(KeyOf(s1, d1, o1), e)
    ensures s1 == s2 && d1 == d2 && multiset(o1) == multiset(o2) ==> Live(history, KeyOf(s2, d2, o2)) == Some(e)
    ensures !(s1 == s2 && d1 == d2 && multiset(o1) == multiset(o2)) ==>
              Live(history, KeyOf(s2, d2, o2)) == Live(history[..|history| - 1], KeyOf(s2, d2, o2))
  {
    KeyIsCanonical(s1, d1, o1, s2, d2, o2);
  }
}
