/**
  The RateLimiter object: a mutable token bucket shared by reference. Each
  call of IsAllow is one atomic step (Go's `sync.Mutex` serialises
  them); the clock reading is passed in as `now`.
 */
module RateLimiter {
  import opened TokenBucket

  class RateLimiter {
    // fixed at construction
    const rate: int
    const max: int
    const interval: int
    // updated by IsAllow
    var bucket: int
    var lastUpdate: int

    /** The abstract value of this limiter. */
    function State(): Limiter
      reads this
    {
      Limiter(rate, bucket, max, interval, lastUpdate)
    }

    /** The bucket is within its bounds and the refill period is usable. */
    predicate Valid()
      reads this
    {
      TokenBucket.Valid(State())
    }

    /** A full bucket whose period starts at `now`. The arguments are not
        checked; a non-negative capacity and a positive interval give a valid limiter. */
    constructor New(rate: int, max: int, interval: int, now: int)
      ensures this.rate == rate && this.max == max && this.interval == interval
      ensures bucket == max && lastUpdate == now
      ensures max >= 0 && interval > 0 ==> Valid()
    {
      this.rate := rate;
      this.max := max;
      this.bucket := max;
      this.interval := interval;
      this.lastUpdate := now;
    }

    /** Tops the bucket up for the whole intervals elapsed since lastUpdate,
        then spends one token if there is one and says whether it did. */
    method IsAllow(now: int) returns (allowed: bool)
      requires interval > 0
      modifies this
      ensures Decision(State(), allowed) == Step(old(State()), now)
      ensures allowed <==> Refill(old(State()), now).bucket > 0
      ensures lastUpdate == old(lastUpdate) || lastUpdate == now
      ensures old(Valid()) ==> Valid()
    {
      var elapsed := now - lastUpdate;
      if elapsed >= interval {
        var tokensToAdd := (elapsed / interval) * rate;
        if tokensToAdd > 0 {
          bucket := bucket + tokensToAdd;
          if bucket > max {
            bucket := max;
          }
          lastUpdate := now;
        }
      }
      if bucket > 0 {
        bucket := bucket - 1;
        allowed := true;
      } else {
        allowed := false;
      }
    }
  }

  /** A limiter constructed at `start` and called `max + 1` times in
      succession, at the listed times, each earlier than one interval after
      `start`, admits the first `max` calls and refuses the last. */
  method BurstAfterNew(rate: int, max: nat, interval: int, start: int, times: seq<int>)
      returns (passed: nat, lastAllowed: bool)
    requires interval > 0
    requires |times| == max + 1
    requires forall i :: 0 <= i < |times| ==> times[i] < start + interval
    ensures passed == max && !lastAllowed
  {
    var rl := new RateLimiter.New(rate, max, interval, start);
    passed := 0;
    var i := 0;
    while i < max
      invariant 0 <= i <= max
      invariant rl.Valid() && rl.lastUpdate == start
      invariant rl.bucket == max - i && passed == i
      invariant rl.rate == rate && rl.max == max && rl.interval == interval
    {
      RefillBeforeInterval(rl.State(), times[i]);
      var ok := rl.IsAllow(times[i]);
      if ok {
        passed := passed + 1;
      }
      i := i + 1;
    }
    RefillBeforeInterval(rl.State(), times[max]);
    lastAllowed := rl.IsAllow(times[max]);
  }
}
