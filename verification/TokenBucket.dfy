/** The tokens-per-minute (TPM) bucket of src/ratelimit/limiter.rs.

    Instants are nanoseconds on the process's monotonic clock.  The values below
    (`Bucket`, `Refill`, ...) are the specification; `TpmLimiter` is the object the
    router keeps behind a mutex, every method of which is one atomic step. */
module TokenBucket {
  import opened Basics

  const NS_PER_MS: nat := 1_000_000
  const MS_PER_MINUTE: nat := 60_000
  const MINUTE: nat := 60_000_000_000

  datatype Bucket = Bucket(tokens: int, lastUpdate: nat, windowStart: nat, windowConsumed: nat)

  /** The answer of an admission check; `Wait` carries the advertised retry delay. */
  datatype Verdict = Admitted | Wait(secs: real)

  function Elapsed(since: nat, now: nat): nat {
    if now <= since then 0 else now - since
  }

  /** Tokens that `elapsed` nanoseconds are worth: whole milliseconds, whole tokens. */
  function Earned(capacity: nat, elapsed: nat): nat {
    (elapsed / NS_PER_MS) * capacity / MS_PER_MINUTE
  }

  function Fresh(capacity: nat, now: nat): Bucket {
    Bucket(if capacity == 0 then 1 else capacity, now, now, 0)
  }

  function Refill(b: Bucket, capacity: nat, now: nat): Bucket {
    var add := Earned(capacity, Elapsed(b.lastUpdate, now));
    if add > 0 then b.(tokens := if b.tokens + add <= capacity then b.tokens + add else capacity, lastUpdate := now)
    else b
  }

  /** Account `n` deducted tokens in the statistics window. */
  function Track(b: Bucket, n: nat, now: nat): Bucket {
    if Elapsed(b.windowStart, now) > MINUTE
    then b.(windowStart := now, windowConsumed := n)
    else b.(windowConsumed := SaturatingAdd(b.windowConsumed, n))
  }

  function Deduct(b: Bucket, n: nat, statNow: nat): Bucket {
    Track(b.(tokens := b.tokens - n), n, statNow)
  }

  function WaitSecs(capacity: nat, deficit: int): real {
    if capacity > 0 then deficit as real * 60.0 / capacity as real else 60.0
  }

  predicate Admits(b: Bucket, capacity: nat, n: nat, now: nat) {
    Refill(b, capacity, now).tokens >= n
  }

  function AfterCheck(b: Bucket, capacity: nat, n: nat, now: nat, statNow: nat): Bucket {
    var r := Refill(b, capacity, now);
    if r.tokens >= n then Deduct(r, n, statNow) else r
  }

  function AfterConsume(b: Bucket, capacity: nat, n: nat, now: nat, statNow: nat): Bucket {
    Deduct(Refill(b, capacity, now), n, statNow)
  }

  function AfterWindowRead(b: Bucket, statNow: nat): Bucket {
    if Elapsed(b.windowStart, statNow) > MINUTE
    then b.(windowStart := statNow, windowConsumed := 0)
    else b
  }

  class TpmLimiter {
    const capacity: nat
    var tokens: int
    var lastUpdate: nat
    var windowStart: nat
    var windowConsumed: nat

    constructor (capacity: nat, now: nat)
      ensures this.capacity == capacity && State() == Fresh(capacity, now)
      ensures tokens == (if capacity == 0 then 1 else capacity) && lastUpdate == windowStart == now && windowConsumed == 0
    {
      this.capacity := capacity;
      tokens := if capacity == 0 then 1 else capacity;
      lastUpdate, windowStart, windowConsumed := now, now, 0;
    }

    function State(): Bucket
      reads this
    {
      Bucket(tokens, lastUpdate, windowStart, windowConsumed)
    }

    method DoRefill(now: nat)
      modifies this`tokens, this`lastUpdate
      ensures State() == Refill(old(State()), capacity, now)
    {
      var elapsedMs := Elapsed(lastUpdate, now) / NS_PER_MS;
      if elapsedMs > 0 {
        var add := elapsedMs * capacity / MS_PER_MINUTE;
        if add > 0 {
          tokens := if tokens + add <= capacity then tokens + add else capacity;
          lastUpdate := now;
        }
      }
    }

    method TrackWindow(n: nat, statNow: nat)
      modifies this`windowStart, this`windowConsumed
      ensures State() == Track(old(State()), n, statNow)
    {
      if Elapsed(windowStart, statNow) > MINUTE {
        windowStart := statNow;
        windowConsumed := n;
      } else {
        windowConsumed := SaturatingAdd(windowConsumed, n);
      }
    }

    /** Check and atomically deduct `n` tokens; a refusal still refills. */
    method CheckN(n: nat, now: nat, statNow: nat) returns (v: Verdict)
      modifies this
      ensures State() == AfterCheck(old(State()), capacity, n, now, statNow)
      ensures v.Admitted? <==> Admits(old(State()), capacity, n, now)
      ensures v.Wait? ==> v.secs == WaitSecs(capacity, n - tokens)
    {
      DoRefill(now);
      if tokens >= n {
        tokens := tokens - n;
        TrackWindow(n, statNow);
        v := Admitted;
      } else {
        var deficit := n - tokens;
        v := Wait(if capacity > 0 then deficit as real * 60.0 / capacity as real else 60.0);
      }
    }

    /** Post-fact deduction; the balance may go negative. */
    method ConsumeN(n: nat, now: nat, statNow: nat)
      modifies this
      ensures State() == AfterConsume(old(State()), capacity, n, now, statNow)
    {
      DoRefill(now);
      tokens := tokens - n;
      TrackWindow(n, statNow);
    }

    method Remaining(now: nat) returns (balance: int)
      modifies this
      ensures State() == Refill(old(State()), capacity, now)
      ensures balance == tokens
    {
      DoRefill(now);
      balance := tokens;
    }

    method WindowRemaining(statNow: nat) returns (balance: int)
      modifies this
      ensures State() == AfterWindowRead(old(State()), statNow)
      ensures balance == capacity - windowConsumed
    {
      if Elapsed(windowStart, statNow) > MINUTE {
        windowStart := statNow;
        windowConsumed := 0;
      }
      balance := capacity - windowConsumed;
    }
  }
}
