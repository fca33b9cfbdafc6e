/** The host's repeating timers: a handle with the period it was armed
    with, and the delay the host actually waits for a given period. */
module Timers {

  /** A timer armed by `setInterval`: the handle it returned and the
      period, in milliseconds, it was given. */
  datatype Interval = Interval(handle: nat, periodMs: int)

  const TwoTo31: int := 0x8000_0000
  const TwoTo32: int := 0x1_0000_0000

  /** The WebIDL conversion of an integral Number to `long`: the value
      modulo 2^32, read as a signed 32-bit integer. */
  function ToInt32(x: int): (r: int)
    ensures -TwoTo31 <= r < TwoTo31
    ensures (x - r) % TwoTo32 == 0
  {
    var m := x % TwoTo32;
    if m >= TwoTo31 then m - TwoTo32 else m
  }

  /** The delay the host uses for `setInterval(handler, ms)`: the `long`
      timeout, with a negative one replaced by 0, per the timer
      initialisation steps of the HTML standard. */
  function HostDelay(ms: int): (d: int)
    ensures 0 <= d < TwoTo31
    ensures 0 <= ms < TwoTo31 ==> d == ms
  {
    var t := ToInt32(ms);
    if t < 0 then 0 else t
  }

  /** Periods from 2^31 ms (about 24.9 days) up to 2^32 ms wrap to a
      negative `long`, and the host then waits no time at all. */
  lemma WrappedPeriodFiresAtOnce(ms: int)
    requires TwoTo31 <= ms < TwoTo32
    ensures HostDelay(ms) == 0
  {
  }
}
