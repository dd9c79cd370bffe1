# Reservation pipeline: a verified model

A Dafny 4.11 model of a booking backend, from opening hours to a committed booking, together
with the smaller stateful parts it leans on. `dafny verify dfyconfig.toml` checks all of it.

| file | what it models |
|---|---|
| `Wrappers`, `Sorting`, `Counting` | optional values and results; Go's string order and sorts; counting by injections |
| `Calendar` | instants, local days, zones, a skipped hour, Go's fixed-width arithmetic |
| `Windows` | which spans each resource is open on one date |
| `Slots`, `SlotLaws` | the slot generator, its declarative specification, and what follows from it |
| `Lifecycle`, `Bookings` | the status machine; the bookings table and its constraints |
| `Scheduler`, `DayLimits`, `MidnightGap` | a day's availability; exactly when an offered start can be booked, and a zone in which it cannot |
| `Reservations`, `Creation` | one reservation from requested start to committed row; Create from end to end |
| `Protocol`, `Contention` | every interleaving of reservations and transitions; the exact outcome of a race |
| `Refinement` | each transaction of the reservation code is a step of the protocol |
| `Hours` | replacing one scope's weekly hours |
| `CacheKeys`, `Cache`, `Browsing` | the availability cache and its canonical key |
| `Pricing`, `PricingLaws`, `Occupancy` | the price and duration of a choice of options, and the time it occupies |
| `Attributes` | checking and normalizing dynamic attributes |
| `RefreshTokens`, `Verification` | refresh-token rotation and one-time codes under concurrency |

## How it is modelled

- **Time.** An instant is an integer count of nanoseconds. A zone is three functions (local day,
  local minute, instant of a local day and minute) with bounded whole-second offsets, in which a
  local time that some instant shows names an instant that shows it. A local time that none shows,
  in a skipped hour, may be read with either offset, as `time.Date` allows; growing minutes then
  need not name growing instants. `CompleteExactlyInOrder` and `WalkIsCompleteExactly` say exactly
  which zones and windows the generator is complete for.
- **Days.** `DayHolds`, `DayFinds` and `DayReturns` are conditions on a zone and a day alone: the
  busy query covers what the day can offer, its starts lead back to its hours, and the query on
  the way back covers them too. `DayLimits` proves that the busy query is lossless, that starts are
  found again, and that what is offered can be booked, for every table, if and only if the day
  meets the condition. `OrdinaryDay`, a day that is exactly the instants from its first to the next
  day's first, meets all three, whatever the clock does in between.
- **Loops, maps and tables.** Loops are methods with invariants, proved against recursive or
  declarative specifications. Ranging over a Go map picks keys in any order. The cache, the
  bookings table and the hours table are classes that are updated in place.
- **Concurrency.** A SQL statement outside a transaction, and a whole transaction, is one atomic
  step; the properties hold of every finite interleaving of such steps by any number of
  processes. Nothing is claimed about isolation below that.
- **Hashes and random values.** Hashes are injective, so tokens and codes are identified with
  what is hashed. Database failures, deadlocks and clocks are parameters or nondeterministic steps.

## Where the code and its documentation differ

The model follows the code.

- `internal/scheduling/slots.go:189` says a closed exception at either scope removes the
  resource. The code lets an open exception for the resource override a closure of the provider
  (`ClosedOnlyWhenFirstMatch`).
- `internal/booking/service.go:187-188` lists "already fully booked" among the causes of
  OUTSIDE_HOURS. A full start is listed with no resources and ends in SLOT_TAKEN; OUTSIDE_HOURS
  does not depend on bookings at all (`Create`, `FullStartsIgnoreBusy`).
- `internal/booking/service.go:211-212` says SLOT_TAKEN means every candidate is gone. A request
  that deadlocks on its last attempt gives up on a free resource
  (`ExhaustedBudgetRefusesAFreeSlot`). A refusal leaves a free candidate behind if and only if some
  free candidate lost all its attempts (`RefusalIsGenuine`), and in every interleaving each
  candidate was occupied when tried or lost its last attempt (`RefusedForAReason`).
- `internal/auth/service.go:254-256` says the loser of a rotation race is treated as a replay. It
  is refused, but its family stays live (`RaceLoserSparesTheFamily`).
- `internal/catalog/pricing.go:101` promises a stable order of options. The order is a function
  of the set chosen if and only if the chosen names are distinct (`OptionListOrder`).

## Model

| member | source | states |
|---|---|---|
| Sorting.SortSlice | internal/scheduling/slots.go:148-155 | any ordered permutation may come back; ties are left open as Go leaves them |
| Sorting.LexMeans | internal/scheduling/slots.go:148-150 | one text precedes another iff it is smaller where they first differ or is a proper beginning of it |
| Sorting.AscendingUnique | internal/scheduling/slots.go:148-155 | a strictly ascending list is determined by its members |
| Windows.ResolveWindows | internal/scheduling/slots.go:190-255 | the result is, in order, the concatenation over resources of the four-level first match |
| Windows.IndexExceptions | internal/scheduling/slots.go:196-205 | the map and the provider exception hold exactly the last exception of each scope |
| Windows.IndexHours | internal/scheduling/slots.go:207-219 | the map and the provider list hold exactly each scope's rules for the weekday, in order |
| Windows.WindowMembers | internal/scheduling/slots.go:221-252 | a window is in the result iff its resource was asked about and the precedence gives it |
| Windows.FirstMatchDecides | internal/scheduling/slots.go:181-252 | in plain terms: the last exception for the resource decides alone; failing that, the provider's; failing that, the resource's hours of the weekday; failing those, the provider's |
| Windows.WindowsAreLocal | internal/scheduling/slots.go:183-187 | a resource's windows do not change when rules or exceptions of other resources change |
| Windows.ClosedOnlyWhenFirstMatch | internal/scheduling/slots.go:223-240 | under a provider closure the result holds a window of a resource iff it was asked about and its own exception is open with both times |
| Slots.GenerateSlots | internal/scheduling/slots.go:70-157 | terminates for every zone; each start is earlier than the next; exactly the slots with (start, resources) correct: a reached grid point of a window, not too soon, every resource listed iff not busy, ids strictly sorted |
| Slots.WalkWindow | internal/scheduling/slots.go:106-132 | one window adds exactly its grid points before the first overrun to both tables, and the resource exactly where it is not busy |
| Slots.Offer | internal/scheduling/slots.go:121-131 | one grid point joins the bookable starts, and the resource joins its candidates iff nothing overlaps |
| Slots.OverlapsAny | internal/scheduling/slots.go:163-170 | true iff some busy interval meets the half-open interval |
| Slots.GroupBusy | internal/scheduling/slots.go:80-83 | the busy map partitions the intervals by resource |
| Slots.AddFullyBooked | internal/scheduling/slots.go:135-141 | every bookable start becomes a key; no candidate list changes |
| Slots.Assemble | internal/scheduling/slots.go:143-156 | whatever the map order, the result is the slot list of the request, each start earlier than the next |
| Slots.CorrectSlotUnique | internal/scheduling/slots.go:143-153 | one start has one correct slot |
| SlotLaws.SlotListUnique | internal/scheduling/slots.go:66-70 | the specification admits one list per request, so the generator is a function of its request |
| SlotLaws.RepresentationIndependence | internal/scheduling/slots.go:80-156 | reordering or repeating windows and busy intervals leaves the list unchanged |
| SlotLaws.PermutationsAgree | internal/scheduling/slots.go:80-156 | permuted windows and busy intervals give the same list |
| SlotLaws.OffersAreSound | internal/scheduling/slots.go:93-132 | for every zone, an offered (start, resource) is a grid point inside one of its windows, late enough, and disjoint from its busy intervals |
| Calendar.WeekdayAdvances | internal/scheduling/service.go:129 | Thursday is day 0, and weekdays run from Sunday as 0 to Saturday as 6 |
| Calendar.SpringForwardIsAZone | internal/scheduling/slots.go:98-102 | clocks that skip an hour, read with the new offset, meet every law asked of a zone |
| SlotLaws.GridWithoutBreak | internal/scheduling/slots.go:106-113 | while a window's minutes run in order up to its closing instant, the walk visits exactly the timely starts that fit |
| SlotLaws.OffersAreComplete | internal/scheduling/slots.go:106-132 | then every fitting, timely grid point of a resource that is not busy is offered with that resource |
| SlotLaws.OffersExactly | internal/scheduling/slots.go:70-157 | the whole generator in plain terms: a resource is offered at t iff t is whole steps after one of its openings, not too soon, ends by the closing and meets none of its busy intervals |
| SlotLaws.WalkIsCompleteExactly | internal/scheduling/slots.go:106-116 | for one window: every request's walk reaches all that fits, none of it before the opening, iff the window's minutes run in order up to its closing instant |
| SlotLaws.CompleteExactlyInOrder | internal/scheduling/slots.go:106-116 | for a zone and date: every window of every request offers exactly the starts that fit iff the zone keeps order on that day |
| SlotLaws.EarlyStopHidesAStart | internal/scheduling/slots.go:111-113 | with clocks that skip an hour, a window closing inside it hides a free start that fits |
| SlotLaws.FullStartsIgnoreBusy | internal/scheduling/slots.go:121-141 | with fully booked starts included, the starts do not depend on the busy intervals |
| SlotLaws.BrowseIsFullWithoutEmpty | internal/scheduling/slots.go:135-156 | the browse list is the full list without the starts that have no resource |
| SlotLaws.MoreBusyFewerResources | internal/scheduling/slots.go:126-131 | adding busy intervals can only shrink a start's resources |
| SlotLaws.EmptySlotMeansAllBusy | internal/booking/service.go:176-182 | a listed start with no resource is on the grid, and every resource with a window there is busy |
| Lifecycle.NextExactly | internal/booking/state.go:45-89 | exactly which events each status accepts, where each leads, and which statuses are active |
| Lifecycle.TransitionsClimb | internal/booking/state.go:45-68 | every transition leaves an active status and raises the rank |
| Lifecycle.TerminalMeansDone | internal/booking/state.go:72-98 | terminal iff no event is accepted, active iff not terminal |
| Lifecycle.HistoriesAreShort | internal/booking/state.go:45-89 | a path has at most three steps, repeats no status, and never returns from an inactive one |
| Bookings.InsertKeepsValid | migrations/00007_bookings.sql:31-41 | an insert the constraints admit keeps the table free of overlaps |
| Bookings.MoveKeepsValid | internal/db/query/bookings.sql:95-105 | a transition along the graph never trips the exclusion constraint and keeps `cancelled_by` in step |
| Bookings.CapacityBound | migrations/00007_bookings.sql:34-41 | at any instant at most K active bookings cover any K resources |
| Bookings.ListBusyIntervals | internal/db/query/bookings.sql:84-91 | the intervals of exactly the active rows of the resources that meet the window |
| Scheduler.TotalDuration | internal/catalog/scheduling_port.go:33 | minutes times a minute, whenever int32 and int64 do not wrap |
| Occupancy.OccupiedTime | internal/catalog/scheduling_port.go:31-33 | the resource is occupied for exactly the service, the chosen options and the buffer iff that many minutes fit in int64 nanoseconds, whatever wraps on the way |
| Scheduler.DaySlots | internal/scheduling/service.go:80-209 | for a bookable service, the slot list of the day's request; otherwise the right refusal |
| Scheduler.WindowsStayInDay | internal/scheduling/service.go:126-170 | stored hours and exceptions give windows within minutes 0 to 1440 of requested resources |
| Scheduler.OrdinaryDayIsKept | internal/scheduling/service.go:122-124 | a day that is exactly the instants up to the next day's first meets all three conditions on days |
| Scheduler.DayGrid | internal/scheduling/service.go:122-124 | every start on a day's grid is a minute of the shown day that the conditions on days speak about |
| Scheduler.BusyQueryIsLossless | internal/scheduling/service.go:174-202 | for an appointment inside the queried span a resource is busy iff some active booking in the whole table meets it |
| Scheduler.DayRowsSuffice | internal/db/query/bookings.sql:84-91 | on a day that holds, slots from the day's rows equal slots from all active rows |
| DayLimits.QueryIsLosslessExactly | internal/db/query/bookings.sql:84-91 | over every table and service, the day's busy query loses nothing iff the zone's day holds |
| Scheduler.OfferedIsFoundAgain | internal/booking/service.go:162-190 | a start offered for a kept day is a slot of the request recomputed from the start, with the same resources |
| DayLimits.StartsAreFoundAgainExactly | internal/booking/service.go:162-190 | over every table and service, offered starts are found again iff each start the day can offer leads back to the same hours |
| Scheduler.FreeOnTheSecond | internal/booking/service.go:113 | a free start falls on a whole second, so truncation keeps it |
| Scheduler.FreeCanBeInserted | internal/booking/service.go:113-124 | a free resource's interval inside the queried span passes both table constraints |
| Scheduler.OfferedMeansBookable | internal/booking/service.go:113-190 | on a kept day, an offered start that still clears the lead time survives truncation, is found again as the same slot, and its first candidate's insert meets no constraint |
| Scheduler.OfferedIsListedAgain | internal/booking/service.go:162-190 | the same of the lists on an ordinary day: what the browse list holds, the list booking recomputes holds |
| DayLimits.OffersAreBookableExactly | internal/booking/service.go:113-190 | over every table and service, what browsing offers for a date can be booked iff the zone's day holds, finds and returns |
| MidnightGap.SkippedMidnightHidesABooking | internal/scheduling/service.go:122-124 | clocks skip midnight, and a booked time is offered |
| MidnightGap.SkippedMidnightDoesNotHold | internal/scheduling/service.go:122-124 | that zone's day 0 does not hold |
| Reservations.BookingTable.constructor | migrations/00007_bookings.sql:2-41 | an empty table satisfies the constraints |
| Reservations.BookingTable.CreateBooking | internal/booking/service.go:288-350 | commits iff no fault, a positive interval and no active overlap; says which failed otherwise; a failure changes nothing |
| Reservations.BookingTable.Transition | internal/booking/service.go:382-417 | NOT_FOUND iff there is no such booking, INVALID_TRANSITION iff the machine refuses; otherwise moves exactly that booking, and `cancelled_by` names who cancelled |
| Reservations.TryResource | internal/booking/service.go:234-272 | the outcome of the first attempt that is not a retried deadlock, within three transactions; exhaustion counts as gone |
| Reservations.InsertBooking | internal/booking/service.go:213-232 | the first candidate not gone decides; SLOT_TAKEN iff all are gone; at most three transactions per candidate |
| Reservations.ResourcesForStart | internal/booking/service.go:176-190 | OUTSIDE_HOURS iff no slot starts then; SLOT_TAKEN iff the slot has no resource; otherwise its resources |
| Reservations.CandidatesFor | internal/booking/service.go:121-131 | the eligible resources in ascending order, or exactly why there is none |
| Reservations.Reserve | internal/booking/service.go:117-157 | OUTSIDE_HOURS iff the start is not on the grid; a committed row is the checked interval on an eligible resource; nothing else changes |
| Reservations.GivenUpExactly | internal/booking/service.go:234-272 | a candidate is given up iff an overlapping booking holds it or all its attempts deadlocked |
| Reservations.RefusedExactly | internal/booking/service.go:213-232 | SLOT_TAKEN iff that is so of every candidate |
| Reservations.RefusalIsGenuine | internal/booking/service.go:209-232 | a refusal leaves a free candidate behind iff some free candidate lost all its attempts |
| Reservations.Create | internal/booking/service.go:113-157 | the same for a priced service from stored tables; when the query covers the appointment and nothing fails, it succeeds iff some resource is eligible, and takes the least |
| Reservations.HeldDayIsSeen | internal/scheduling/service.go:122-124 | on a day that holds the query covers every appointment |
| Creation.CheckOrder | internal/booking/service.go:77-111 | the first failing check on start, service, attributes and options names the error; otherwise the catalogue's quote and the stored attributes |
| Creation.Create | internal/booking/service.go:76-160 | a booking made is one new row that starts at the second asked for, not inside the lead time, lasts exactly service, options and buffer while that fits in int64 nanoseconds, on the resource asked for, with the status of the mode; a start inside the lead time is OUTSIDE_HOURS; only a booking made touches the table, and it drops the provider's cached availability |
| Protocol.StepOk | internal/booking/service.go:206-272 | every step of every process keeps the invariant |
| Protocol.NoDoubleBooking | migrations/00007_bookings.sql:34-41 | in every reachable state no two active bookings of one resource overlap, and K resources hold at most K at any instant |
| Protocol.Histories | internal/booking/state.go:45-89 | every booking's history is a path of at most three steps without repetition, and `cancelled_by` matches the status |
| Protocol.OneWinner | internal/booking/service.go:377-417 | of the transitions that read one status at most one commits; two reservations never own one row |
| Protocol.TransactionBudget | internal/booking/service.go:234-272 | a request runs at most three transactions per candidate |
| Protocol.NothingIsReactivated | internal/booking/state.go:70-98 | a booking keeps its resource and interval for ever, and one that is no longer active never changes |
| Contention.RaceOk | internal/booking/service.go:213-232 | in every state of a race, what lies behind a racer is occupied and every new booking has a racer as owner |
| Contention.WinnersOnDistinctResources | internal/booking/service.go:206-232 | two winners hold different resources |
| Contention.LoserMeansAllHeld | internal/booking/service.go:226-232 | a refused racer implies that every resource is held by a winner |
| Contention.ExactlyMinWin | internal/booking/service.go:206-232 | N racers over K free resources: exactly min(N, K) succeed, on distinct resources, and the rest are refused |
| Contention.GivenUpForAReason | internal/booking/service.go:213-272 | in every run, each candidate behind a reservation was occupied at the step it was tried or given up by a deadlock on its last attempt |
| Contention.RefusedForAReason | internal/booking/service.go:209-232 | so it is of every candidate of a refused reservation |
| Contention.ExhaustedBudgetRefusesAFreeSlot | internal/booking/service.go:253-259 | three deadlocks refuse a request although nothing is booked |
| Refinement.TurnIsAStep | internal/booking/service.go:237-269 | one turn of the retry loop is one step of the protocol, from any state the other processes have left |
| Refinement.TurnsMakeOutcome | internal/booking/service.go:234-272 | the outcome of the retry loop is what its turns come to |
| Refinement.InsertBookingIsARun | internal/booking/service.go:213-272 | an uninterrupted call, under any faults, is a run of one process from any state, with the same rows and answer |
| Refinement.TransitionIsARun | internal/booking/service.go:382-417 | a transition is a read step and a guarded write step of the protocol |
| Hours.AssertNoOverlap | internal/scheduling/service.go:525-540 | accepts iff no two spans share a minute of a weekday |
| Hours.DayIsOk | internal/scheduling/service.go:531-538 | sorting and comparing neighbours decides pairwise disjointness of a day |
| Hours.AdjacentTestDecides | internal/scheduling/service.go:532-537 | neighbours suffice once sorted, however ties fall |
| Hours.DisjointMeansNoSharedMinute | internal/scheduling/service.go:524-525 | pairwise separation is the same as sharing no minute |
| Hours.DisjointByDay | internal/scheduling/service.go:526-531 | separation may be decided weekday by weekday |
| Hours.HoursTable.ReplaceHours | internal/scheduling/service.go:458-522 | each error exactly when its check fails first, span by span; on commit the rows are the new week's and those outside the scope, in place and the provider's cached availability is gone, otherwise nothing changes |
| Hours.ReplacedScopeOnly | internal/scheduling/service.go:441-458 | reading back: the scope's rows are the supplied week, every other scope's rows are as before |
| CacheKeys.CacheKey | internal/scheduling/cache.go:110-124 | builds the canonical key |
| CacheKeys.KeyIsCanonical | internal/scheduling/cache.go:108-124 | keys are equal iff service and date are equal and the options are permutations of each other |
| CacheKeys.JoinInjective | internal/scheduling/cache.go:122 | joining fixed-length ids loses nothing |
| Cache.LiveMeans | internal/scheduling/cache.go:46-93 | the live entry of a key is its latest put, provided its provider was not invalidated since |
| Cache.PutKeeps | internal/scheduling/cache.go:72-80 | a put keeps both maps inverse to each other and faithful to the history |
| Cache.EvictKeeps | internal/scheduling/cache.go:100-105 | so does evicting an expired entry |
| Cache.InvalidateKeeps | internal/scheduling/cache.go:89-92 | so does dropping a provider, and the dropped keys are exactly its own |
| Cache.AvailabilityCache.constructor | internal/scheduling/cache.go:35-44 | an empty cache; a non-positive lifetime becomes a minute |
| Cache.AvailabilityCache.Get | internal/scheduling/cache.go:46-61 | hits iff the live put has not expired, and returns its slots |
| Cache.AvailabilityCache.Put | internal/scheduling/cache.go:63-83 | appends one put to the history and keeps the maps faithful to it |
| Cache.AvailabilityCache.EvictExpired | internal/scheduling/cache.go:98-106 | removes exactly the expired entries |
| Cache.AvailabilityCache.InvalidateProvider | internal/scheduling/cache.go:85-93 | removes exactly the provider's entries |
| Cache.HitsAreShared | internal/scheduling/cache.go:108-110 | a put answers every permutation of its options and disturbs no other question |
| Browsing.Availability | internal/scheduling/service.go:80-209 | the live cached list, or else the day's slot list, which is then remembered unless the day had no window |
| Pricing.Resolve | internal/catalog/pricing.go:50-78 | succeeds iff the ids are distinct active options of the tree; otherwise reports the first bad one |
| Pricing.CheckGroupRules | internal/catalog/pricing.go:114-138 | succeeds iff every group's effective min, single and max hold; otherwise reports the first group at fault |
| Pricing.Totals | internal/catalog/pricing.go:84-89 | the running int32 sums equal the wrapped exact sums |
| Pricing.BuildQuote | internal/catalog/pricing.go:40-112 | succeeds iff the choice is acceptable; price and time are the service's plus the chosen deltas iff those are int32s; the options are snapshots of the chosen ones, ordered by name and then by choice; otherwise the first thing wrong |
| Pricing.SortInOrderOfName | internal/catalog/pricing.go:101-104 | sorting by name is a permutation, ordered by name, that keeps the order of choice within a name |
| PricingLaws.FindMeans | internal/catalog/pricing.go:41-48 | an id stands for the last option of the tree with that id |
| PricingLaws.AcceptedExactly | internal/catalog/pricing.go:40-138 | when the totals are int32s, accepted iff ids are distinct and stand for active options, every group's rule holds of the true counts, the price is at least nothing and the time more |
| PricingLaws.GroupRuleIsAboutCounts | internal/catalog/pricing.go:115-135 | the int32 conversion of a count never changes a group's verdict for fewer than 2^31 options |
| PricingLaws.OrderOfChoiceIsImmaterial | internal/catalog/pricing.go:40-112 | acceptance, totals and the multiset of options do not depend on the order of choice |
| PricingLaws.OptionListOrder | internal/catalog/pricing.go:101-104 | the option list does not depend on the order of choice iff the chosen names are distinct |
| Pricing.SortIsStable | internal/catalog/pricing.go:101-104 | options of one name keep their relative order |
| Attributes.ValidateAttributes | internal/catalog/validator.go:22-61 | succeeds iff every key is defined and every definition met; the problem keys are exactly the offending ones, each with a justified problem |
| Attributes.Coerce | internal/catalog/validator.go:65-133 | accepts iff a canonical form exists, returns it, and otherwise explains the first thing wrong |
| Attributes.CoerceList | internal/catalog/validator.go:102-119 | accepts iff every item is an allowed choice and none repeats |
| Attributes.AcceptedNumberAgain | internal/catalog/validator.go:135-155 | a stored number is accepted again unchanged iff it is finite, and only a json.Number can store one that is not |
| Attributes.CheckDef | internal/catalog/validator.go:40-55 | one definition adds at most its own problem and at most its own value |
| Attributes.NormalizedMeans | internal/catalog/validator.go:28-60 | for unique keys the stored map holds exactly the present keys, each in canonical form |
| Attributes.TrimKeepsTheRest | internal/catalog/validator.go:72 | trimming takes the spaces at both ends away and keeps everything between |
| Attributes.TextMeans | internal/catalog/validator.go:67-76 | a text is stored trimmed, accepted unless required and blank |
| Attributes.PlainMeans | internal/catalog/validator.go:78-100 | numbers, truth values and choices: which are accepted, and stored as what |
| Attributes.ListMeans | internal/catalog/validator.go:102-126 | a list is accepted iff its items are distinct allowed choices and not missing, and stored as those choices in strict order |
| Attributes.TrimTwice | internal/catalog/validator.go:72 | trimming is idempotent |
| Attributes.CanonicalAgain | internal/catalog/validator.go:63-133 | a canonical value, written as JSON and read back, coerces to itself |
| Attributes.StoredFormIsFixpoint | internal/catalog/validator.go:13-61 | the stored map, written as JSON and read back, validates to itself |
| Attributes.StoredValueEncodes | internal/catalog/validator.go:142-147 | a stored value fails to encode iff it came from a json.Number that spells a non-finite float |
| Attributes.DirectRevalidation | internal/catalog/validator.go:102-126 | without the JSON round trip a stored value is accepted unchanged iff it is not a list |
| RefreshTokens.StepOk | internal/auth/service.go:218-321 | every step keeps the invariant of chains, rows and processes |
| RefreshTokens.ExchangedAtMostOnce | internal/auth/service.go:252-263 | over all runs each token has at most one successor and at most one process that exchanged it |
| RefreshTokens.ChainsKeepTheirClient | internal/auth/service.go:290-293 | every token has the user and client type of the sign-in its chain began with |
| RefreshTokens.SignInIssues | internal/auth/service.go:408-446 | signing in issues one live token for the lifetime of its client type |
| RefreshTokens.ExchangedInTime | internal/auth/service.go:228-247 | in every run a token is exchanged only by a process that read it unrevoked and no later than its expiry |
| RefreshTokens.ExpiryIsAnswered | internal/auth/service.go:228-247 | TOKEN_EXPIRED iff the token is unrevoked and expired, INVALID_TOKEN if unknown; reading changes no row |
| RefreshTokens.RefreshSucceeds | internal/auth/service.go:218-298 | a live unexpired token, refreshed without interruption, is revoked and its successor in the chain is live from now for its own client's lifetime |
| RefreshTokens.ReplayRevokesTheFamily | internal/auth/service.go:237-245 | a replay revokes exactly the user's tokens and is refused |
| RefreshTokens.SignOutEndsTheSession | internal/auth/service.go:303-321 | signing out revokes exactly the named token; signing out everywhere exactly the user's |
| RefreshTokens.CleanupDeletesTheOld | internal/db/query/refresh_tokens.sql:31-33 | exactly the tokens expired more than thirty days ago are deleted |
| RefreshTokens.FailureChangesNothing | internal/auth/service.go:249-298 | a failed request changes no token |
| RefreshTokens.RefreshKeepsLiveCount | internal/auth/service.go:249-298 | rotation leaves every user's number of live tokens unchanged, and a refused one changes no row |
| RefreshTokens.ReplayEndsTheFamily | internal/auth/service.go:237-245 | after a replay every later live token of the user descends from a later sign-in |
| RefreshTokens.ReplayIsRecognized | internal/auth/service.go:228-245 | presenting an exchanged token leads to revocation as long as its row exists |
| RefreshTokens.RaceLoserSparesTheFamily | internal/auth/service.go:252-263 | the loser of a race is refused and the winner's successor stays live |
| Verification.NewestLive | internal/db/query/verification_codes.sql:13-19 | the newest unconsumed row of the address, if there is one |
| Verification.StepOk | internal/auth/verification.go:39-131 | every step keeps the invariant of rows, tickets and processes |
| Verification.RunGrows | internal/db/query/verification_codes.sql:21-32 | attempts never fall, a consumed row keeps its consumer, nothing compared or verified is undone |
| Verification.AtMostFiveGuesses | internal/auth/verification.go:100-116 | in every interleaving, crashes included, at most five submissions are compared against one code |
| Verification.ExhaustedCodeIsDead | internal/auth/verification.go:100-112 | once five attempts are counted and none is pending, the code is never compared again |
| Verification.ConsumedOnce | internal/auth/verification.go:118-125 | at most one process ever wins a code, across all times of a run |
| Verification.RetiredCodeIsNeverWon | internal/auth/verification.go:47-52 | a code retired by a resend or burned by the limit is never won afterwards |
| Verification.SubmissionOutcome | internal/auth/verification.go:77-131 | an uninterrupted submission with a usable code counts one attempt and ends verified iff fewer than five were counted and the code is right, INVALID_CODE iff it is wrong, TOO_MANY_ATTEMPTS with the code burned otherwise |
| Verification.RightCodeVerifies | internal/auth/verification.go:114-131 | the right code consumes its row and verifies its user |
| Verification.WrongCodeIsInvalid | internal/auth/verification.go:114-116 | a wrong code costs one attempt and nothing else |
| Verification.SixthAttemptBurns | internal/auth/verification.go:106-112 | after five attempts even the right code is refused and the row consumed |
| Verification.NoCodeIsInvalid | internal/auth/verification.go:85-98 | without an unexpired live code nothing is counted |
| Verification.EmptyIsRefused | internal/auth/verification.go:81-83 | an empty address or code, and only that, is a validation error |
| Verification.IssueLeavesOneCode | internal/auth/verification.go:39-60 | issuing consumes the address's earlier codes and adds one without attempts, good for fifteen minutes |
| Verification.LateMatchIsInvalid | internal/auth/verification.go:118-125 | a match on a consumed row is refused and changes nothing |
| Verification.FailureChangesNothing | internal/auth/verification.go:89-129 | a failed statement counts, consumes and verifies nothing |
| Verification.VerifiedOnlyByAWinningMatch | internal/auth/verification.go:96-130 | a verified user has a comparison that matched a code sent to that user's address, unexpired when read, within five attempts, that consumed the code |

## Left out

- HTTP handlers, middleware, configuration, logging, media and file storage: no deep invariant.
- JWTs, password hashing, random generation and real zone tables: library code.
- Isolation below one statement or transaction: each is one atomic step, so an insert that escapes a concurrent revoke-all is not modelled.
- Create: the catalog lookups and an unknown timezone are not modelled; the service, its options and its attribute definitions are parameters.
- CreateBooking: the code, price, snapshot and option rows written in the same transaction are reduced to the fields the constraints read.
- Transition: the cache invalidation after a booking stops being active, and the cancel reason, are not modelled.
- GenerateSlots: requires a non-positive step or one of at least a minute, because a positive step below a minute never advances and the source would not return.
- ExactlyMinWin: assumes that no racer crashes or uses up its last attempt and that nothing is cancelled during the race.
- SortSlice: is any ordered permutation; comparison counts and in-place swapping are not modelled.
- Put: slices are values, so the defensive copies of get and put have nothing to protect; the granularity of the read lock is one operation.
- Availability: a fill that races an invalidation may store a stale list; only the history property is proved.
- ReplaceHours: the pass of "24:00" through SQL `time` and the database's ids of the new rows are not modelled; CreateHours and UpdateHours make no overlap check and are left out.
- CacheKey: dates are texts without a bar and ids are 36-character texts; the formatting itself is not modelled.
- ValidateAttributes: the sentence that summarizes problems is left out, and float parsing and integer conversion are parameters.
- DaySlots: the public date arrives as UTC midnight and is read in the provider's zone, so serving the requested calendar day is not claimed; the queries' ORDER BY is immaterial by PermutationsAgree.
- Histories: rows deleted by ON DELETE CASCADE are not modelled, for bookings or for codes.
- VerifiedOnlyByAWinningMatch: one live code per address is not claimed, since retiring and creating are two statements; only the email channel is modelled.
- Team membership, invitations, catalogue CRUD, listings, paging, statistics and reviews: easy or SQL only.
