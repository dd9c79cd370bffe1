/** internal/catalog/scheduling_port.go: how long a booking with options occupies its resource. */
module Occupancy {
  import opened Calendar
  import opened Pricing
  import Scheduler

  /** The longest time, in minutes, that an int64 of nanoseconds can hold. */
  const MAX_MINUTES := 153_722_867

  /** The resource is occupied for the service, plus what the chosen options add, plus the buffer,
      if and only if that many minutes fit in an int64 of nanoseconds; neither the int32 sums of
      the quote nor the int32 sum with the buffer can spoil it. */
  lemma OccupiedTime(service: ServicePrice, selected: seq<Selected>, buffer: Int32)
    ensures var minutes := service.minutes + SumMinutes(selected) + buffer;
            Scheduler.TotalDuration(QuoteOf(service, selected).minutes, buffer) == minutes * MINUTE
            <==> -MAX_MINUTES <= minutes <= MAX_MINUTES
  {
    WrapsMeet(service.minutes + SumMinutes(selected), buffer);
  }

  lemma WrapsMeet(quoted: int, buffer: int)
    ensures Wrap64(Wrap32(Wrap32(quoted) + buffer) * MINUTE) == (quoted + buffer) * MINUTE
            <==> -MAX_MINUTES <= quoted + buffer <= MAX_MINUTES
  {
    WrapAdd(quoted, buffer);
    if -MAX_MINUTES <= quoted + buffer <= MAX_MINUTES {
      assert Wrap32(quoted + buffer) == quoted + buffer;
    } else {
      assert (quoted + buffer) * MINUTE >= (MAX_MINUTES + 1) * MINUTE
             || (quoted + buffer) * MINUTE <= -(MAX_MINUTES + 1) * MINUTE;
    }
  }
}
