/**
  Properties of series of IsAllow calls: draining a bucket that receives no
  top-up, the burst allowed from a full bucket, calls in quick succession,
  the exact accounting of a refill after whole intervals, and the partial
  interval that a top-up discards.
 */
module Burst {
  import opened TokenBucket

  /** None of the listed times tops the bucket up. */
  predicate NoTopUps(s: Limiter, times: seq<int>)
    requires s.interval > 0
  {
    forall i :: 0 <= i < |times| ==> !TopsUp(s, times[i])
  }

  /** Spending a token changes neither the refill decision nor its inputs. */
  lemma TopsUpIgnoresBucket(s: Limiter, b: int, now: int)
    requires s.interval > 0
    ensures TopsUp(s.(bucket := b), now) == TopsUp(s, now)
  {
  }

  /** Calls that never top up answer yes to the first `bucket` of them and no
      to the rest; the bucket ends drained by that many tokens, lastUpdate untouched. */
  lemma {:induction false} Drain(s: Limiter, times: seq<int>)
    requires s.interval > 0 && 0 <= s.bucket
    requires NoTopUps(s, times)
    ensures var t := Replay(s, times);
            (forall i :: 0 <= i < |times| ==> t.answers[i] == (i < s.bucket))
            && t.last == s.(bucket := if |times| <= s.bucket then s.bucket - |times| else 0)
    decreases |times|
  {
    if times != [] {
      RefillNothingToAdd(s, times[0]);
      var d := Step(s, times[0]);
      assert d.next == Admit(s).next;
      forall i | 0 <= i < |times[1..]|
        ensures !TopsUp(d.next, times[1..][i])
      {
        TopsUpIgnoresBucket(s, d.next.bucket, times[1..][i]);
        assert times[1..][i] == times[i + 1];
      }
      Drain(d.next, times[1..]);
      var rest := Replay(d.next, times[1..]);
      var t := Replay(s, times);
      assert t.answers == [d.allowed] + rest.answers;
      forall i | 0 <= i < |times|
        ensures t.answers[i] == (i < s.bucket)
      {
        if i > 0 {
          assert t.answers[i] == rest.answers[i - 1];
        }
      }
    }
  }

  /** Burst: from a full bucket, with every call less than one interval after
      the last top-up, exactly `max` calls are admitted and the next is refused. */
  lemma Burst(s: Limiter, times: seq<int>)
    requires Valid(s) && s.bucket == s.max
    requires |times| == s.max + 1
    requires forall i :: 0 <= i < |times| ==> times[i] - s.lastUpdate < s.interval
    ensures Replay(s, times).answers == seq(s.max, _ => true) + [false]
    ensures Replay(s, times).last == s.(bucket := 0)
  {
    forall i | 0 <= i < |times|
      ensures !TopsUp(s, times[i])
    {
      RefillBeforeInterval(s, times[i]);
    }
    Drain(s, times);
    var t := Replay(s, times);
    var expected := seq(s.max, _ => true) + [false];
    forall i | 0 <= i < |times|
      ensures t.answers[i] == expected[i]
    {
      assert t.answers[i] == (i < s.max);
    }
  }

  /** All the listed calls happen at the same instant. */
  predicate AllAt(times: seq<int>, now: int)
  {
    forall i :: 0 <= i < |times| ==> times[i] == now
  }

  /** Calls in succession where no call after the first tops up again: the
      first call's refilled bucket is handed out one token per call, and every
      later call is refused. */
  lemma WithinFirstPeriod(s: Limiter, times: seq<int>)
    requires Valid(s) && times != []
    requires forall i :: 0 < i < |times| ==> !TopsUp(Refill(s, times[0]), times[i])
    ensures var t := Replay(s, times);
            forall i :: 0 <= i < |times| ==> t.answers[i] == (i < Refill(s, times[0]).bucket)
  {
    var r := Refill(s, times[0]);
    var d := Step(s, times[0]);
    forall i | 0 <= i < |times[1..]|
      ensures !TopsUp(d.next, times[1..][i])
    {
      assert times[1..][i] == times[i + 1];
      TopsUpIgnoresBucket(r, d.next.bucket, times[i + 1]);
    }
    Drain(d.next, times[1..]);
    var rest := Replay(d.next, times[1..]);
    var t := Replay(s, times);
    assert t.answers == [d.allowed] + rest.answers;
    forall i | 0 <= i < |times|
      ensures t.answers[i] == (i < r.bucket)
    {
      if i > 0 {
        assert t.answers[i] == rest.answers[i - 1];
      }
    }
  }

  /** After a first call that tops up, later calls less than one interval
      after it do not top up again. */
  lemma NoSecondTopUp(s: Limiter, times: seq<int>)
    requires s.interval > 0 && times != [] && TopsUp(s, times[0])
    requires forall i :: 0 <= i < |times| ==> times[i] < times[0] + s.interval
    ensures forall i :: 0 < i < |times| ==> !TopsUp(Refill(s, times[0]), times[i])
  {
  }

  /** Calls in quick succession, all at the same instant `now`: whatever the
      first call's refill leaves in the bucket is handed out one token per
      call, and every later call is refused. */
  lemma SameInstant(s: Limiter, now: int, times: seq<int>)
    requires Valid(s)
    requires AllAt(times, now)
    ensures var t := Replay(s, times);
            forall i :: 0 <= i < |times| ==> t.answers[i] == (i < Refill(s, now).bucket)
  {
    if times != [] {
      var r := Refill(s, now);
      assert !TopsUp(r, now) by {
        if r.lastUpdate != now {
          RefillChangesIffTopsUp(s, now);
          assert r == s;
        }
      }
      WithinFirstPeriod(s, times);
    }
  }

  /** Full bucket, `max + 1` calls in succession, no call after the first
      topping up again: `max` admissions, then a refusal, whatever the time
      of the last top-up. This covers a first call that tops up (and restarts
      the period at its own time) as well as one that does not. */
  lemma BurstFromFull(s: Limiter, times: seq<int>)
    requires Valid(s) && s.bucket == s.max
    requires |times| == s.max + 1
    requires forall i :: 0 < i < |times| ==> !TopsUp(Refill(s, times[0]), times[i])
    ensures Replay(s, times).answers == seq(s.max, _ => true) + [false]
  {
    WithinFirstPeriod(s, times);
    assert Refill(s, times[0]).bucket == s.max;
    var t := Replay(s, times);
    var expected := seq(s.max, _ => true) + [false];
    forall i | 0 <= i < |times|
      ensures t.answers[i] == expected[i]
    {
      assert Replay(s, times).answers[i] == (i < Refill(s, times[0]).bucket);
    }
  }

  /** A first call that tops up a full bucket restarts the period at its own
      time, so later calls less than one interval after the first one still
      see only the `max` tokens: `max` admissions, then a refusal. */
  lemma BurstAfterTopUp(s: Limiter, times: seq<int>)
    requires Valid(s) && s.bucket == s.max
    requires |times| == s.max + 1 && TopsUp(s, times[0])
    requires forall i :: 0 <= i < |times| ==> times[i] < times[0] + s.interval
    ensures Replay(s, times).answers == seq(s.max, _ => true) + [false]
  {
    NoSecondTopUp(s, times);
    BurstFromFull(s, times);
  }

  /** A product of a positive factor with a whole number of at least one is at least that factor. */
  lemma AtLeastOnce(a: int, d: int)
    requires a >= 1 && d > 0
    ensures a * d >= d
  {
    assert a * d == (a - 1) * d + d;
    assert (a - 1) * d >= 0;
  }

  /** Whole intervals followed by a remainder: the quotient is the number of intervals. */
  lemma WholeIntervals(k: int, f: int, d: int)
    requires d > 0 && 0 <= f < d
    ensures (k * d + f) / d == k
  {
    var x := k * d + f;
    var q := x / d;
    var m := x % d;
    assert x == q * d + m && 0 <= m < d;
    assert (k - q) * d == m - f;
    if k > q {
      AtLeastOnce(k - q, d);
    } else if k < q {
      AtLeastOnce(q - k, d);
    }
  }

  /** Exact refill accounting: a drained bucket first checked `k` whole
      intervals (and less than one more) after its last top-up, and then
      checked again within one interval of that first check, admits
      min(max, k * rate) calls and refuses the rest. */
  lemma RefillAfterWholeIntervals(s: Limiter, k: nat, f: int, times: seq<int>)
    requires Valid(s) && s.bucket == 0 && s.rate > 0
    requires k >= 1 && 0 <= f < s.interval
    requires times != [] ==> times[0] == s.lastUpdate + k * s.interval + f
    requires forall i :: 0 <= i < |times| ==> times[i] < times[0] + s.interval
    ensures var t := Replay(s, times);
            forall i :: 0 <= i < |times| ==> t.answers[i] == (i < Min(s.max, k * s.rate))
  {
    if times != [] {
      var now := times[0];
      WholeIntervals(k, f, s.interval);
      assert (now - s.lastUpdate) / s.interval == k;
      assert k * s.rate > 0;
      RefillTopsUp(s, now);
      NoSecondTopUp(s, times);
      WithinFirstPeriod(s, times);
    }
  }

  /** Below one interval nothing is added: a drained bucket stays drained and
      every call is refused. */
  lemma DrainedStaysDrained(s: Limiter, times: seq<int>)
    requires Valid(s) && s.bucket == 0
    requires forall i :: 0 <= i < |times| ==> times[i] - s.lastUpdate < s.interval
    ensures Replay(s, times).answers == seq(|times|, _ => false)
    ensures Replay(s, times).last == s
  {
  }

  /** A top-up restarts the period at `now`: the fraction of an interval that
      had elapsed beyond the whole intervals counted is not carried over, so
      no check within one interval of `now` tops up again. */
  lemma RefillDropsPartialInterval(s: Limiter, now: int, later: int)
    requires s.interval > 0
    requires TopsUp(s, now)
    requires now <= later < now + s.interval
    ensures !TopsUp(Refill(s, now), later)
  {
  }

  /** A concrete instance of the dropped fraction: interval 10, rate 1, a
      drained bucket last topped up at 0. A check at 15 adds one token and
      moves lastUpdate to 15; a check at 20, two whole intervals after 0,
      adds nothing more, so only one token was credited for two intervals. */
  lemma PartialIntervalExample()
    ensures var s := Limiter(1, 0, 100, 10, 0);
            var d := Step(s, 15);
            d.allowed && d.next.lastUpdate == 15
            && !Step(d.next, 20).allowed
            && (20 - s.lastUpdate) / s.interval == 2
  {
  }
}
