/**
  The lazy-refill token bucket as values: the state of one limiter, the
  refill step, the admission step and their composition into one call of
  IsAllow. Timestamps and durations are integers in one common unit (Go's
  time.Duration counts nanoseconds); the caller's clock reading is the
  parameter `now`.
 */
module TokenBucket {

  /** The five data fields of one RateLimiter. */
  datatype Limiter = Limiter(
    rate: int,        // tokens added per whole elapsed interval
    bucket: int,      // tokens currently available
    max: int,         // capacity of the bucket
    interval: int,    // refill period
    lastUpdate: int   // time of the last top-up (or of construction)
  )

  /** The result of one admission check: the new state and the answer. */
  datatype Decision = Decision(next: Limiter, allowed: bool)

  /** The results of a series of admission checks, one answer per call. */
  datatype Trace = Trace(last: Limiter, answers: seq<bool>)

  /** The bucket is within its bounds and the refill period is usable. */
  predicate Valid(s: Limiter)
  {
    0 <= s.bucket <= s.max && s.interval > 0
  }

  /** Both states belong to the same limiter: only bucket and lastUpdate may differ. */
  predicate SameConfig(s: Limiter, t: Limiter)
  {
    s.rate == t.rate && s.max == t.max && s.interval == t.interval
  }

  /** The number of tokens a check at `now` computes for the top-up:
      whole elapsed intervals times the rate, or none before one interval. */
  function TokensToAdd(s: Limiter, now: int): (n: int)
    requires s.interval > 0
    ensures now - s.lastUpdate < s.interval ==> n == 0
    ensures s.rate > 0 && now - s.lastUpdate >= s.interval ==> n >= s.rate
    ensures s.rate == 0 ==> n == 0
  {
    var elapsed := now - s.lastUpdate;
    if elapsed >= s.interval then
      // elapsed and interval are both positive here, so Dafny's division
      // agrees with Go's truncating division of time.Duration values
      assert elapsed / s.interval >= 1;
      (elapsed / s.interval) * s.rate
    else 0
  }

  /** Whether a check at `now` actually tops the bucket up. */
  predicate TopsUp(s: Limiter, now: int)
    requires s.interval > 0
  {
    TokensToAdd(s, now) > 0
  }

  /** The refill part of IsAllow: add the computed tokens, clamped to max,
      and move lastUpdate to `now`, but only when some tokens were added. */
  function Refill(s: Limiter, now: int): (r: Limiter)
    requires s.interval > 0
    ensures SameConfig(s, r)
    ensures r.lastUpdate == s.lastUpdate || r.lastUpdate == now
    ensures Valid(s) ==> Valid(r) && s.bucket <= r.bucket
  {
    if TopsUp(s, now) then
      var filled := s.bucket + TokensToAdd(s, now);
      s.(bucket := if filled > s.max then s.max else filled, lastUpdate := now)
    else s
  }

  /** The admission part of IsAllow: spend one token if there is one. */
  function Admit(s: Limiter): (d: Decision)
    ensures d.allowed <==> s.bucket > 0
    ensures d.next == s.(bucket := d.next.bucket)
    ensures d.allowed ==> d.next.bucket == s.bucket - 1
    ensures !d.allowed ==> d.next == s
    ensures Valid(s) ==> Valid(d.next)
  {
    if s.bucket > 0 then Decision(s.(bucket := s.bucket - 1), true)
    else Decision(s, false)
  }

  /** One call of IsAllow at time `now`: refill, then admit. */
  function Step(s: Limiter, now: int): (d: Decision)
    requires s.interval > 0
    ensures SameConfig(s, d.next)
    ensures Valid(s) ==> Valid(d.next)
    ensures d.next.lastUpdate == s.lastUpdate || d.next.lastUpdate == now
  {
    Admit(Refill(s, now))
  }

  /** A series of calls of IsAllow, at the times listed, in order. */
  function Replay(s: Limiter, times: seq<int>): (t: Trace)
    requires s.interval > 0
    ensures |t.answers| == |times|
    ensures SameConfig(s, t.last)
    ensures Valid(s) ==> Valid(t.last)
    decreases |times|
  {
    if times == [] then Trace(s, [])
    else
      var d := Step(s, times[0]);
      var rest := Replay(d.next, times[1..]);
      Trace(rest.last, [d.allowed] + rest.answers)
  }

  /** Fewer than one whole interval since the last top-up: refill changes nothing. */
  lemma RefillBeforeInterval(s: Limiter, now: int)
    requires s.interval > 0
    requires now - s.lastUpdate < s.interval
    ensures Refill(s, now) == s
    ensures !TopsUp(s, now)
  {
  }

  /** A top-up fills to min(max, bucket + whole intervals * rate) and restarts the period at `now`. */
  lemma RefillTopsUp(s: Limiter, now: int)
    requires s.interval > 0
    requires now - s.lastUpdate >= s.interval
    requires ((now - s.lastUpdate) / s.interval) * s.rate > 0
    ensures TopsUp(s, now)
    ensures var n := ((now - s.lastUpdate) / s.interval) * s.rate;
            Refill(s, now) == s.(bucket := Min(s.max, s.bucket + n), lastUpdate := now)
  {
  }

  /** A zero (or negative) token count leaves bucket and lastUpdate untouched,
      so the partial progress towards the next interval is kept. */
  lemma RefillNothingToAdd(s: Limiter, now: int)
    requires s.interval > 0
    requires !TopsUp(s, now)
    ensures Refill(s, now) == s
  {
  }

  /** Refill changes the state exactly when it tops up; a top-up sets lastUpdate to `now`. */
  lemma RefillChangesIffTopsUp(s: Limiter, now: int)
    requires s.interval > 0
    ensures Refill(s, now) != s ==> TopsUp(s, now)
    ensures TopsUp(s, now) ==> Refill(s, now).lastUpdate == now
    ensures TopsUp(s, now) ==> Refill(s, now) != s
  {
  }

  /** With a positive rate every check at least one interval after the last top-up tops up. */
  lemma PositiveRateAlwaysTopsUp(s: Limiter, now: int)
    requires s.interval > 0 && s.rate > 0
    requires now - s.lastUpdate >= s.interval
    ensures TopsUp(s, now)
    ensures Refill(s, now).lastUpdate == now
  {
  }

  /** IsAllow answers yes exactly when the refilled bucket holds a token; on yes it
      holds one token less than after refill, on no it is empty and otherwise as
      refill left it. */
  lemma StepDecides(s: Limiter, now: int)
    requires Valid(s)
    ensures var r := Refill(s, now);
            var d := Step(s, now);
            (d.allowed <==> r.bucket > 0)
            && (d.allowed ==> d.next == r.(bucket := r.bucket - 1))
            && (!d.allowed ==> d.next == r && r.bucket == 0)
  {
  }

  /** The bucket only goes down on a yes, and then by exactly one token;
      it only goes up through a top-up. */
  lemma StepTokenAccounting(s: Limiter, now: int)
    requires Valid(s)
    ensures var d := Step(s, now);
            (d.next.bucket < s.bucket ==> d.allowed && d.next.bucket == s.bucket - 1)
            && (d.next.bucket > s.bucket ==> TopsUp(s, now))
            && (d.next.bucket >= s.bucket ==> TopsUp(s, now) || !d.allowed)
  {
  }

  /** A refused call leaves the bucket empty, and moves lastUpdate only when
      the capacity is zero (a top-up into a bucket that can hold nothing). */
  lemma RefusalOnlyWhenEmpty(s: Limiter, now: int)
    requires Valid(s)
    requires !Step(s, now).allowed
    ensures Step(s, now).next.bucket == 0
    ensures Step(s, now).next.lastUpdate != s.lastUpdate ==> s.max == 0
  {
  }

  /** A refusal that still changes the state: capacity 0, rate 1, interval 10. */
  lemma RefusalWithTopUpExample()
    ensures var d := Step(Limiter(1, 0, 0, 10, 0), 10);
            !d.allowed && d.next.lastUpdate == 10
  {
  }

  function Min(a: int, b: int): (m: int)
    ensures m <= a && m <= b && (m == a || m == b)
  {
    if a <= b then a else b
  }
}
