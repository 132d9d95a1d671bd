# Lazy-refill token bucket rate limiter, in Dafny

This project models `RateLimiter`, a Go token bucket. A limiter has five
fields: `rate`, `bucket`, `max`, `interval` and `lastUpdate`.

- `New` builds a full bucket.
- `IsAllow` is the admission check. It first tops the bucket up with
  `floor(elapsed / interval) * rate` tokens, capped at `max`. It moves
  `lastUpdate` to the current time only when that computed count is positive,
  even when the cap leaves the bucket as it was. Then it spends
  one token if the bucket holds any, and says whether it did.

The model has three files:

- `token_bucket.dfy` (module `TokenBucket`): the limiter as a value
  (`Limiter`). It has the refill step (`Refill`), the admission step
  (`Admit`), one whole call (`Step`), a series of calls (`Replay`), and the
  single-call properties.
- `burst.dfy` (module `Burst`): properties of series of calls. These cover
  draining, the burst from a full bucket, calls in quick succession, exact
  refill accounting after whole intervals, and the partial interval that a
  top-up discards.
- `ratelimiter.dfy` (module `RateLimiter`): the mutable object. Class
  `RateLimiter` has `const` fields `rate`, `max` and `interval`, and `var`
  fields `bucket` and `lastUpdate`. It has the constructor `New` and the
  method `IsAllow`, both proved against the value model. `BurstAfterNew` is a
  client that replays the scenario of the repository's tests.

Time is an integer in one common unit. The clock reading is the parameter
`now` of `New` and `IsAllow`. Go divides two positive `time.Duration` values,
so its truncating division agrees with Dafny's.

The invariant `0 <= bucket <= max` holds for every `rate`, including zero and
negative rates. A refill adds tokens only when the computed count is
positive, and then clamps to `max`. The admission step spends a token only
when `bucket > 0`. So `Valid` asks only for the bounds and a positive
`interval`.

Two behaviours of the code are worth noting:

- A refusal is not always free of side effects. With `max == 0`, a top-up
  moves `lastUpdate` and the call is still refused (ratelimiter.go:39-52;
  `RefusalOnlyWhenEmpty`, `RefusalWithTopUpExample`).
- A top-up sets `lastUpdate` to `now` (ratelimiter.go:44). It does not set it
  to the end of the last whole interval, so the fraction of an interval past
  that point is discarded (`RefillDropsPartialInterval`,
  `PartialIntervalExample`).

## Model

| member | source | states |
|---|---|---|
| `TokenBucket.TokensToAdd` | ratelimiter.go:37-38 | No tokens before one whole interval has elapsed. With a positive rate, at least `rate` tokens once it has. With a zero rate, none. |
| `TokenBucket.Refill` | ratelimiter.go:34-46 | The configuration is unchanged. `lastUpdate` is either kept or set to `now`. A valid bucket stays within `[0, max]` and never shrinks. |
| `TokenBucket.Admit` | ratelimiter.go:48-52 | The answer is yes exactly when `bucket > 0`. On yes, exactly one token is spent and nothing else changes. On no, nothing changes. The bounds are kept. |
| `TokenBucket.Step` | ratelimiter.go:30-53 | One call keeps `rate`, `max` and `interval`. It preserves `0 <= bucket <= max`. It leaves `lastUpdate` at its old value or at `now`. |
| `TokenBucket.Replay` | ratelimiter.go:30-53 | A series of calls gives one answer per call. It keeps the configuration and preserves the bounds. |
| `TokenBucket.RefillBeforeInterval` | ratelimiter.go:37 | Fewer than one interval since `lastUpdate` means refill changes neither `bucket` nor `lastUpdate`. |
| `TokenBucket.RefillTopsUp` | ratelimiter.go:37-45 | With a positive token count, the bucket becomes `min(max, bucket + (elapsed / interval) * rate)` and `lastUpdate` becomes `now`. |
| `TokenBucket.RefillNothingToAdd` | ratelimiter.go:38-39 | With no positive token count, refill leaves `bucket` and `lastUpdate` untouched. |
| `TokenBucket.RefillChangesIffTopsUp` | ratelimiter.go:39-44 | Refill changes the state if and only if it tops up. A top-up always sets `lastUpdate` to `now`. |
| `TokenBucket.PositiveRateAlwaysTopsUp` | ratelimiter.go:37-44 | With `rate > 0`, a check one interval or more after `lastUpdate` always tops up and advances `lastUpdate`. |
| `TokenBucket.StepDecides` | ratelimiter.go:48-52 | `IsAllow` says yes exactly when the refilled bucket is positive. On yes it is one below the refilled value. On no it equals the refilled value, which is 0. |
| `TokenBucket.StepTokenAccounting` | ratelimiter.go:40-49 | The bucket goes down only on a yes, and then by exactly one. It goes up only through a top-up. A call that does not lower it either topped up or was refused. |
| `TokenBucket.RefusalOnlyWhenEmpty` | ratelimiter.go:37-52 | A refusal leaves the bucket at 0. It moves `lastUpdate` only when `max == 0`. |
| `TokenBucket.RefusalWithTopUpExample` | ratelimiter.go:39-52 | With capacity 0, a call can be refused and still move `lastUpdate`. |
| `Burst.Drain` | ratelimiter.go:37-52 | If no call tops up, the first `bucket` calls are admitted and the rest refused. The bucket drains by that count and `lastUpdate` is untouched. |
| `Burst.Burst` | ratelimiter_test.go:50-66 | Full bucket, all calls within one interval of `lastUpdate`: exactly `max` admissions, then a refusal, leaving an empty bucket. |
| `Burst.WithinFirstPeriod` | ratelimiter.go:34-52 | Calls in succession where no call after the first tops up again: answer `i` is yes exactly when `i` is below the bucket left by the first call's refill. |
| `Burst.NoSecondTopUp` | ratelimiter.go:37-44 | After a first call that tops up, no later call less than one interval after it tops up again. |
| `Burst.SameInstant` | ratelimiter.go:34-52 | Calls at one instant are admitted while the first call's refilled bucket lasts, one token each. Every later call is refused. |
| `Burst.BurstFromFull` | ratelimiter_test.go:79-96 | Full bucket, `max + 1` calls in succession with no top-up after the first call: `max` admissions, then a refusal, whatever `lastUpdate` was and whether or not the first call tops up. |
| `Burst.BurstAfterTopUp` | ratelimiter_test.go:19-37 | Full bucket whose first call tops up, later calls within one interval of that first call: `max` admissions, then a refusal. |
| `Burst.RefillAfterWholeIntervals` | ratelimiter.go:37-45 | A drained bucket checked `k >= 1` whole intervals (plus under one more) after `lastUpdate`, then checked again within one interval of that first check, admits `min(max, k * rate)` calls. It refuses the rest. |
| `Burst.DrainedStaysDrained` | ratelimiter.go:37 | Less than one interval after `lastUpdate`, a drained bucket refuses every call and its state does not change. |
| `Burst.RefillDropsPartialInterval` | ratelimiter.go:44 | After a top-up at `now`, no check within one interval of `now` tops up again. The partial interval is not carried over. |
| `Burst.PartialIntervalExample` | ratelimiter.go:37-44 | With interval 10 and rate 1, checks at 15 and 20 after a top-up at 0 credit only one token for two whole intervals. |
| `RateLimiter.RateLimiter.New` | ratelimiter.go:19-27 | `rate`, `max` and `interval` are stored as given. `bucket == max` and `lastUpdate == now`. With `max >= 0` and `interval > 0` the limiter is valid. |
| `RateLimiter.RateLimiter.IsAllow` | ratelimiter.go:30-53 | The new state and the answer are exactly one `Step` of the old state at `now`. The answer is yes exactly when the refilled bucket is positive. The bounds are preserved. `rate`, `max` and `interval` are `const`. |
| `RateLimiter.BurstAfterNew` | ratelimiter_test.go:17-37 | A limiter built at `start` and called `max + 1` times in succession, at any times earlier than `start + interval`, admits exactly `max` calls and refuses the last. |

## Left out

- The `sync.Mutex` (ratelimiter.go:15, 31-32): each `IsAllow` call is one atomic step. Interleavings of concurrent callers are not modelled.
- The system clock (`time.Now()` at ratelimiter.go:25 and 34): it is the integer parameter `now`.
- `time.Time`/`time.Duration` representation: timestamps are unbounded integers. `now.Sub` saturation at the `time.Duration` limits is not modelled.
- `TokenBucket.Refill`: does not model 64-bit overflow of `tokensToAdd` or of `bucket + tokensToAdd` (ratelimiter.go:38, 40). Arithmetic is on unbounded integers.
- `TokenBucket.TokensToAdd`: does not model 64-bit overflow of the product `(elapsed / interval) * rate`.
- `RateLimiter.RateLimiter.IsAllow`: requires `interval > 0`. With a zero interval the Go code panics on integer division. A negative interval is outside the model.
- The tests' fake clock (clockwork) writes only `lastUpdate`, and `IsAllow` reads the real clock. The test scenarios are modelled as calls in quick succession (`Burst.BurstFromFull`, `RateLimiter.BurstAfterNew`) and as calls within one interval (`Burst.Burst`). The lemmas leave the value of `lastUpdate` free.
- A background (active) refill loop and a `StartRefill` operation are not part of this model. The Go package holds only the lazy refill.
