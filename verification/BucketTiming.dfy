/** Retry delays, frequent polling and idle cleanup of a TPM bucket. */
module BucketTiming {
  import opened TokenBucket
  import opened BucketRuns

  const NS_PER_SEC: nat := 1_000_000_000
  const IDLE_SECS: nat := 600

  // ---- the advertised retry delay ----

  lemma DivAtLeast(x: int, k: int)
    ensures x / MS_PER_MINUTE >= k <==> x >= k * MS_PER_MINUTE
  {}

  /** When the next check after a refusal is admitted, with no call in between. */
  lemma RetryExact(b: Bucket, c: nat, n: nat, t: nat, statT: nat, t2: nat)
    requires c >= 1 && Sane(b, c, t) && n <= c && !Admits(b, c, n, t) && t <= t2
    ensures var r := AfterCheck(b, c, n, t, statT);
      && r.lastUpdate <= t && r.tokens < n
      && (Admits(r, c, n, t2) <==>
          (t2 - r.lastUpdate) / NS_PER_MS * c >= (n - r.tokens) * MS_PER_MINUTE)
  {
    var r := AfterCheck(b, c, n, t, statT);
    DivAtLeast((t2 - r.lastUpdate) / NS_PER_MS * c, n - r.tokens);
  }

  lemma LaterEnough(d1: nat, d2: nat, c: nat, need: nat)
    requires d1 <= d2 && d1 / NS_PER_MS * c >= need * MS_PER_MINUTE
    ensures d2 / NS_PER_MS * c >= need * MS_PER_MINUTE
  {
    MulMono(d1 / NS_PER_MS, d2 / NS_PER_MS, c);
  }

  lemma DelayInMs(ms: nat, c: nat, need: nat)
    requires c >= 1 && ms as real >= 1000.0 * WaitSecs(c, need)
    ensures ms * c >= need * MS_PER_MINUTE
  {
    var w := WaitSecs(c, need);
    assert w * c as real == 60.0 * need as real;
    assert ms as real * c as real >= 1000.0 * w * c as real;
    assert (ms * c) as real == ms as real * c as real;
  }

  /** Waiting the advertised delay, counted in whole milliseconds, is enough ... */
  lemma RetryAfterSuffices(b: Bucket, c: nat, n: nat, t: nat, statT: nat, t2: nat)
    requires c >= 1 && Sane(b, c, t) && n <= c && !Admits(b, c, n, t) && t <= t2
    requires ((t2 - t) / NS_PER_MS) as real
          >= 1000.0 * WaitSecs(c, n - AfterCheck(b, c, n, t, statT).tokens)
    ensures Admits(AfterCheck(b, c, n, t, statT), c, n, t2)
  {
    var r := AfterCheck(b, c, n, t, statT);
    RetryExact(b, c, n, t, statT, t2);
    DelayInMs((t2 - t) / NS_PER_MS, c, n - r.tokens);
    LaterEnough(t2 - t, t2 - r.lastUpdate, c, n - r.tokens);
  }

  /** The advertised delay for a deficit, rounded up to a nanosecond. */
  function DelayNs(c: nat, deficit: nat): nat
    requires c >= 1
  {
    (deficit * MINUTE + c - 1) / c
  }

  lemma CeilingMeans(x: nat, c: nat, w: nat)
    requires c >= 1
    ensures w >= (x + c - 1) / c <==> w * c >= x
  {
    var q := (x + c - 1) / c;
    assert q * c <= x + c - 1 < q * c + c;
    if w >= q {
      MulMono(q, w, c);
    } else {
      MulMono(w + 1, q, c);
      Successor(w, c);
    }
  }

  /** It is the least whole number of nanoseconds that is at least `wait_secs`. */
  lemma DelayIsWait(c: nat, deficit: nat, w: nat)
    requires c >= 1
    ensures w >= DelayNs(c, deficit) <==> w as real >= WaitSecs(c, deficit) * NS_PER_SEC as real
  {
    CeilingMeans(deficit * MINUTE, c, w);
    var wait := WaitSecs(c, deficit);
    assert wait * c as real == 60.0 * deficit as real;
    assert (w * c) as real == w as real * c as real;
    assert wait * NS_PER_SEC as real * c as real == (deficit * MINUTE) as real;
    RealScale(w as real, wait * NS_PER_SEC as real, c as real);
  }

  /** The advertised wait, in numbers. */
  lemma WaitIs(c: nat, deficit: int)
    ensures c > 0 ==> WaitSecs(c, deficit) * c as real == 60.0 * deficit as real
    ensures c == 0 ==> WaitSecs(c, deficit) == 60.0
  {}

  lemma RealScale(a: real, b: real, c: real)
    requires c > 0.0
    ensures a >= b <==> a * c >= b * c
  {}

  /** Every caller who was refused for this deficit and waits out the delay is admitted. */
  ghost predicate DelaySuffices(c: nat, deficit: nat)
    requires c >= 1
  {
    forall b: Bucket, n: nat, t: nat, statT: nat, t2: nat ::
      Sane(b, c, t) && n <= c && !Admits(b, c, n, t) && n - AfterCheck(b, c, n, t, statT).tokens == deficit
        && t2 >= t + DelayNs(c, deficit) ==>
      Admits(AfterCheck(b, c, n, t, statT), c, n, t2)
  }

  /** ... but the delay to the nanosecond is enough, whatever the bucket, if and only if its
      whole milliseconds already earn the deficit, which c and the deficit decide. */
  lemma RetryDelayExactly(c: nat, deficit: nat)
    requires c >= 1 && deficit >= 1
    ensures DelaySuffices(c, deficit) <==> DelayNs(c, deficit) / NS_PER_MS * c >= deficit * MS_PER_MINUTE
  {
    var delay := DelayNs(c, deficit);
    if DelaySuffices(c, deficit) {
      var b := Bucket(c - deficit, 0, 0, 0);
      assert Sane(b, c, 0) && !Admits(b, c, c, 0) && c - AfterCheck(b, c, c, 0, 0).tokens == deficit;
      assert Admits(AfterCheck(b, c, c, 0, 0), c, c, delay);
      RetryExact(b, c, c, 0, 0, delay);
    }
    if delay / NS_PER_MS * c >= deficit * MS_PER_MINUTE {
      forall b: Bucket, n: nat, t: nat, statT: nat, t2: nat
        | Sane(b, c, t) && n <= c && !Admits(b, c, n, t) && n - AfterCheck(b, c, n, t, statT).tokens == deficit
          && t2 >= t + delay
        ensures Admits(AfterCheck(b, c, n, t, statT), c, n, t2)
      {
        RetryExact(b, c, n, t, statT, t2);
        LaterEnough(delay, t2 - AfterCheck(b, c, n, t, statT).lastUpdate, c, deficit);
      }
    }
  }

  /** In particular when the capacity divides 60000 times the deficit. */
  lemma WholeDelaySuffices(c: nat, deficit: nat)
    requires c >= 1 && deficit >= 1 && deficit * MS_PER_MINUTE % c == 0
    ensures DelaySuffices(c, deficit)
  {
    var k := deficit * MS_PER_MINUTE / c;
    var w := k * NS_PER_MS;
    assert k * c == deficit * MS_PER_MINUTE;
    assert w * c == k * c * NS_PER_MS;
    CeilingMeans(deficit * MINUTE, c, w);
    assert (w - 1) * c == w * c - c;
    if DelayNs(c, deficit) < w { CeilingMeans(deficit * MINUTE, c, w - 1); }
    RetryDelayExactly(c, deficit);
  }

  /** A capacity for which it is not: 7 tokens per minute, one token short. */
  lemma RetryAfterTruncation()
    ensures !DelaySuffices(7, 1)
  {
    RetryDelayExactly(7, 1);
  }

  /** No admission comes earlier than the advertised delay minus one token's refill time
      (and, where the refill is imprecise, one millisecond). */
  lemma RetryAfterTight(b: Bucket, c: nat, n: nat, t: nat, statT: nat, t2: nat, off: nat)
    requires c >= 1 && Sane(b, c, t) && n <= c && !Admits(b, c, n, t) && t <= t2
    requires Precise(c, b.lastUpdate, off) && Precise(c, t, off)
    requires Admits(AfterCheck(b, c, n, t, statT), c, n, t2)
    ensures (t2 - t) * c > (n - AfterCheck(b, c, n, t, statT).tokens - 1) * MINUTE - off * c
  {
    var r := AfterCheck(b, c, n, t, statT);
    EarnedUpper(c, t2 - r.lastUpdate);
    PotentialGrows(r, c, t, t2);
    RefusedPotential(b, c, t, off);
  }

  /** After a refill less than a token is due. */
  lemma RefusedPotential(b: Bucket, c: nat, t: nat, off: nat)
    requires Sane(b, c, t) && Precise(c, b.lastUpdate, off) && Precise(c, t, off)
    ensures var r := Refill(b, c, t); (t - r.lastUpdate) * c < MINUTE + off * c
  {
    if Earned(c, t - b.lastUpdate) == 0 { EarnedLower(c, t - b.lastUpdate, off); }
  }

  /** A request for more than the capacity is refused in every reachable bucket. */
  lemma OversizeNeverAdmitted(c: nat, t0: nat, run: seq<Call>, n: nat, at: nat)
    requires c >= 1 && Timed(t0, run) && n > c
    requires run == [] || run[|run| - 1].statAt <= at
    ensures !Admits(Run(Fresh(c, t0), c, run), c, n, at)
  {
    RunSane(Fresh(c, t0), c, run, t0);
  }

  // ---- polling ----

  /** What one poll can cost: a flooring of tokens and, off whole milliseconds, the tokens
      of one millisecond. */
  function PollCost(c: nat, off: nat): nat {
    if off == 0 then 1 else 1 + (c + MS_PER_MINUTE - 1) / MS_PER_MINUTE
  }

  lemma PollCostIs(c: nat)
    requires c >= 1
    ensures PollCost(c, 0) == 1
    ensures 60_000 * (PollCost(c, NS_PER_MS) - 2) < c <= 60_000 * (PollCost(c, NS_PER_MS) - 1)
  {}

  lemma EarnedSplit(c: nat, x: nat, y: nat, off: nat)
    requires OnGrid(x, off) && OnGrid(y, off)
    ensures Earned(c, x) + Earned(c, y) <= Earned(c, x + y) <= Earned(c, x) + Earned(c, y) + PollCost(c, off)
  {
    var mx, my, m := x / NS_PER_MS, y / NS_PER_MS, (x + y) / NS_PER_MS;
    assert mx + my <= m <= mx + my + if off == 0 then 0 else 1;
    EarnedSplitMs(c, mx, my, m);
  }

  lemma EarnedSplitMs(c: nat, mx: nat, my: nat, m: nat)
    requires mx + my <= m <= mx + my + 1
    ensures mx * c / MS_PER_MINUTE + my * c / MS_PER_MINUTE <= m * c / MS_PER_MINUTE
    ensures m * c / MS_PER_MINUTE <= mx * c / MS_PER_MINUTE + my * c / MS_PER_MINUTE
                                     + PollCost(c, if m == mx + my then 0 else NS_PER_MS)
  {
    var p, q := mx * c, my * c;
    assert (mx + my) * c == p + q;
    assert (mx + my + 1) * c == p + q + c;
    assert m * c == p + q || m * c == p + q + c;
  }

  lemma GridDifference(a: nat, b: nat, off: nat)
    requires a <= b && OnGrid(a, off) && OnGrid(b, off)
    ensures OnGrid(b - a, off)
  {}

  lemma OnePoll(b: Bucket, c: nat, u: nat, t: nat, off: nat)
    requires Sane(b, c, u) && u <= t
    requires OnGrid(u - b.lastUpdate, off) && OnGrid(t - u, off)
    ensures Refill(Refill(b, c, u), c, t).tokens <= Refill(b, c, t).tokens
    ensures Refill(b, c, t).tokens <= Refill(Refill(b, c, u), c, t).tokens + PollCost(c, off)
  {
    EarnedSplit(c, u - b.lastUpdate, t - u, off);
    assert (u - b.lastUpdate) + (t - u) == t - b.lastUpdate;
  }

  predicate PollsOnGrid(polls: seq<Call>, off: nat) {
    forall k :: 0 <= k < |polls| ==> OnGrid(polls[k].at, off)
  }

  /** `remaining()` is not free: against one direct refill, k polls before it cost up to
      k * PollCost tokens (on whole milliseconds, k tokens), and never gain any. */
  lemma {:induction false} PollingCost(b: Bucket, c: nat, polls: seq<Call>, t0: nat, t: nat, off: nat)
    requires OnGrid(b.lastUpdate, off) && PollsOnGrid(polls, off) && OnGrid(t, off)
    requires Sane(b, c, t0) && Timed(t0, polls)
    requires forall k :: 0 <= k < |polls| ==> polls[k].op.Remaining?
    requires t0 <= t && (polls != [] ==> polls[|polls| - 1].statAt <= t)
    ensures Refill(Run(b, c, polls), c, t).tokens <= Refill(b, c, t).tokens
    ensures Refill(b, c, t).tokens <= Refill(Run(b, c, polls), c, t).tokens + |polls| * PollCost(c, off)
    decreases polls
  {
    if polls != [] {
      LastStatNotBefore(t0, polls);
      GridDifference(b.lastUpdate, polls[0].at, off);
      GridDifference(polls[0].at, t, off);
      OnePoll(b, c, polls[0].at, t, off);
      var b1, rest := Refill(b, c, polls[0].at), polls[1..];
      assert Run(b, c, polls) == Run(b1, c, rest);
      PollingCost(b1, c, rest, polls[0].statAt, t, off);
      Successor(|rest|, PollCost(c, off));
    }
  }

  lemma {:induction false} LastStatNotBefore(t: nat, run: seq<Call>)
    requires Timed(t, run) && run != []
    ensures t <= run[0].at <= run[0].statAt <= run[|run| - 1].statAt
    decreases run
  {
    if |run| > 1 {
      LastStatNotBefore(run[0].statAt, run[1..]);
      assert run[1..][|run[1..]| - 1] == run[|run| - 1];
    }
  }

  /** What a bucket refilled at every poll and at t earns, from the instants alone. */
  function PollEarnings(c: nat, last: nat, polls: seq<Call>, t: nat): nat
    decreases polls
  {
    if polls == [] then Earned(c, Elapsed(last, t)) else
      var e := Earned(c, Elapsed(last, polls[0].at));
      if e == 0 then PollEarnings(c, last, polls[1..], t)
      else e + PollEarnings(c, polls[0].at, polls[1..], t)
  }

  function Capped(c: nat, x: int): int {
    if x <= c then x else c
  }

  lemma {:induction false} PollsEarn(b: Bucket, c: nat, polls: seq<Call>, t: nat)
    requires b.tokens <= c && forall k :: 0 <= k < |polls| ==> polls[k].op.Remaining?
    ensures Refill(Run(b, c, polls), c, t).tokens == Capped(c, b.tokens + PollEarnings(c, b.lastUpdate, polls, t))
    decreases polls
  {
    if polls != [] { PollsEarn(Refill(b, c, polls[0].at), c, polls[1..], t); }
  }

  /** MAIN RESULT (exact condition): a run of polls costs nothing if and only if the flooring
      at each poll lost no token, or the bucket is full by then anyway. */
  lemma PollingFreeExactly(b: Bucket, c: nat, polls: seq<Call>, t0: nat, t: nat)
    requires Sane(b, c, t0) && Timed(t0, polls)
    requires forall k :: 0 <= k < |polls| ==> polls[k].op.Remaining?
    requires t0 <= t && (polls != [] ==> polls[|polls| - 1].statAt <= t)
    ensures var earned := PollEarnings(c, b.lastUpdate, polls, t);
      Refill(Run(b, c, polls), c, t).tokens == Refill(b, c, t).tokens <==>
      earned == Earned(c, t - b.lastUpdate) || b.tokens + earned >= c
  {
    PollsEarn(b, c, polls, t);
    PollingCost(b, c, polls, t0, t, NS_PER_MS);
  }

  /** The same of one poll at u. */
  lemma OnePollFreeExactly(b: Bucket, c: nat, u: nat, t: nat)
    requires Sane(b, c, u) && u <= t
    ensures var e1, e2 := Earned(c, u - b.lastUpdate), Earned(c, t - u);
      Refill(Refill(b, c, u), c, t).tokens == Refill(b, c, t).tokens <==>
      e1 == 0 || e1 + e2 == Earned(c, t - b.lastUpdate) || b.tokens + e1 + e2 >= c
  {
    OnePoll(b, c, u, t, NS_PER_MS);
  }

  /** No polling ever costs a token of a bucket of this capacity. */
  ghost predicate PollingIsFree(c: nat, off: nat) {
    forall b: Bucket, polls: seq<Call>, t0: nat, t: nat ::
      PollingRun(b, c, polls, t0, t, off) ==> Refill(Run(b, c, polls), c, t).tokens == Refill(b, c, t).tokens
  }

  ghost predicate PollingRun(b: Bucket, c: nat, polls: seq<Call>, t0: nat, t: nat, off: nat) {
    && Sane(b, c, t0) && Timed(t0, polls)
    && (forall k :: 0 <= k < |polls| ==> polls[k].op.Remaining?)
    && t0 <= t && (polls != [] ==> polls[|polls| - 1].statAt <= t)
    && OnGrid(b.lastUpdate, off) && PollsOnGrid(polls, off) && OnGrid(t, off)
  }

  lemma EarnedWhole(c: nat, d: nat)
    requires c % MS_PER_MINUTE == 0
    ensures Earned(c, d) == d / NS_PER_MS * (c / MS_PER_MINUTE)
  {
    var ms, k := d / NS_PER_MS, c / MS_PER_MINUTE;
    assert ms * c == ms * k * MS_PER_MINUTE;
  }

  lemma EarnedAdds(c: nat, x: nat, y: nat)
    requires c % MS_PER_MINUTE == 0 && x % NS_PER_MS == 0 && y % NS_PER_MS == 0
    ensures Earned(c, x) + Earned(c, y) == Earned(c, x + y)
  {
    EarnedWhole(c, x);
    EarnedWhole(c, y);
    EarnedWhole(c, x + y);
    assert (x + y) / NS_PER_MS == x / NS_PER_MS + y / NS_PER_MS;
    Distribute(x / NS_PER_MS, y / NS_PER_MS, c / MS_PER_MINUTE);
  }

  lemma {:induction false} PollsLoseNothing(c: nat, last: nat, polls: seq<Call>, t0: nat, t: nat)
    requires c % MS_PER_MINUTE == 0 && last <= t0 <= t && Timed(t0, polls)
    requires polls != [] ==> polls[|polls| - 1].statAt <= t
    requires OnGrid(last, 0) && PollsOnGrid(polls, 0) && OnGrid(t, 0)
    ensures PollEarnings(c, last, polls, t) == Earned(c, t - last)
    decreases polls
  {
    if polls != [] {
      var u := polls[0].at;
      LastStatNotBefore(t0, polls);
      assert OnGrid(u, 0);
      GridDifference(last, u, 0);
      GridDifference(u, t, 0);
      EarnedAdds(c, u - last, t - u);
      assert (u - last) + (t - u) == t - last;
      PollsLoseNothing(c, if Earned(c, u - last) == 0 then last else u, polls[1..], polls[0].statAt, t);
    }
  }

  /** MAIN RESULT (exact condition): polling is free for a capacity if and only if the clock
      is read in whole milliseconds and the capacity is a multiple of 60000, so that every
      millisecond earns whole tokens.  Otherwise one poll half way through two minutes
      already costs a token. */
  lemma PollingIsFreeExactly(c: nat, off: nat)
    requires c >= 1 && (off == 0 || off == NS_PER_MS)
    ensures PollingIsFree(c, off) <==> off == 0 && c % MS_PER_MINUTE == 0
  {
    if off == 0 && c % MS_PER_MINUTE == 0 {
      forall b: Bucket, polls: seq<Call>, t0: nat, t: nat | PollingRun(b, c, polls, t0, t, off)
        ensures Refill(Run(b, c, polls), c, t).tokens == Refill(b, c, t).tokens
      {
        PollsLoseNothing(c, b.lastUpdate, polls, t0, t);
        PollingFreeExactly(b, c, polls, t0, t);
      }
    } else {
      var u := if off == 0 then 60_001 * NS_PER_MS else 60_001 * NS_PER_MS - 1;
      CostlyPoll(c, u, off);
    }
  }

  lemma CostlyPoll(c: nat, u: nat, off: nat)
    requires c >= 1
    requires (off == 0 && u == 60_001 * NS_PER_MS && c % MS_PER_MINUTE != 0)
      || (off == NS_PER_MS && u == 60_001 * NS_PER_MS - 1)
    ensures !PollingIsFree(c, off)
  {
    var b, t := Bucket(-3 * c, 0, 0, 0), 2 * MINUTE;
    var poll := Call(Remaining, u, u);
    var ms := u / NS_PER_MS;
    assert ms * c == (if off == 0 then 60_001 else 60_000) * c;
    assert (t - u) / NS_PER_MS == 59_999;
    assert Earned(c, t) == 2 * c by { assert t / NS_PER_MS * c == 2 * c * MS_PER_MINUTE; }
    assert c <= Earned(c, u) && Earned(c, u) + Earned(c, t - u) < 2 * c;
    OnePollFreeExactly(b, c, u, t);
    assert Timed(0, [poll]) && Run(b, c, [poll]) == Refill(b, c, u) by { assert [poll][1..] == []; }
    assert PollingRun(b, c, [poll], 0, t, off);
  }

  /** k reads, d nanoseconds apart. */
  function PollsEvery(last: nat, d: nat, k: nat): seq<Call>
    decreases k
  {
    if k == 0 then [] else [Call(Remaining, last + d, last + d)] + PollsEvery(last + d, d, k - 1)
  }

  lemma {:induction false} EveryEarns(c: nat, last: nat, d: nat, k: nat)
    requires Earned(c, d) >= 1
    ensures PollEarnings(c, last, PollsEvery(last, d, k), last + k * d) == k * Earned(c, d)
    decreases k
  {
    if k > 0 {
      assert PollsEvery(last, d, k)[1..] == PollsEvery(last + d, d, k - 1);
      Successor(k - 1, d);
      Successor(k - 1, Earned(c, d));
      EveryEarns(c, last + d, d, k - 1);
    } else {
      assert Earned(c, 0) == 0;
    }
  }

  /** The loss at a regular interval: k reads earn k floored amounts, where the documented
      rate yields the linear amount up to one flooring. */
  lemma RegularPolling(c: nat, d: nat, k: nat)
    requires Earned(c, d) >= 1
    ensures PollEarnings(c, 0, PollsEvery(0, d, k), k * d) == k * Earned(c, d)
    ensures k * d * c < MINUTE * (Earned(c, k * d) + 1) + NS_PER_MS * c
  {
    EveryEarns(c, 0, d, k);
    EarnedLower(c, k * d, NS_PER_MS);
  }

  /** Read just under every two milliseconds, every capacity from 60000 on earns one floored
      millisecond at a time instead of nearly two. */
  lemma PollingHalvesRefill(c: nat)
    requires c >= MS_PER_MINUTE
    ensures Earned(c, 1_999_999) == c / MS_PER_MINUTE
    ensures forall k: nat :: PollEarnings(c, 0, PollsEvery(0, 1_999_999, k), k * 1_999_999) == k * (c / MS_PER_MINUTE)
  {
    assert Earned(c, 1_999_999) == c / MS_PER_MINUTE;
    forall k: nat ensures PollEarnings(c, 0, PollsEvery(0, 1_999_999, k), k * 1_999_999) == k * (c / MS_PER_MINUTE) {
      EveryEarns(c, 0, 1_999_999, k);
    }
  }

  // ---- cleanup of idle limiters ----

  predicate Idle(lastUsed: nat, now: nat) {
    now / NS_PER_SEC >= lastUsed / NS_PER_SEC + IDLE_SECS
  }

  predicate SameBalance(b1: Bucket, b2: Bucket) {
    b1.tokens == b2.tokens && b1.lastUpdate == b2.lastUpdate
  }

  /** Equal balances stay equal, and admit and deduct the same, over every later run. */
  lemma {:induction false} SameBalanceSameRuns(b1: Bucket, b2: Bucket, c: nat, run: seq<Call>)
    requires SameBalance(b1, b2)
    ensures SameBalance(Run(b1, c, run), Run(b2, c, run))
    ensures Deducted(b1, c, run) == Deducted(b2, c, run)
    decreases run
  {
    if run != [] { SameBalanceSameRuns(Step(b1, c, run[0]), Step(b2, c, run[0]), c, run[1..]); }
  }

  lemma IdleEarns(c: nat, lastUpdate: nat, lastUsed: nat, now: nat)
    requires c >= 1 && lastUpdate <= lastUsed && Idle(lastUsed, now)
    ensures lastUpdate <= now && Earned(c, now - lastUpdate) >= 9 * c
  {
    var ms := (now - lastUpdate) / NS_PER_MS;
    assert ms >= 599_000;
    MulMono(599_000, ms, c);
    assert ms * c / MS_PER_MINUTE >= 9 * c;
  }

  /** Dropping an idle limiter and recreating it in the next call is invisible to the
      balance exactly when the refill due by then would have filled it anyway. */
  lemma CleanupExact(b: Bucket, c: nat, lastUsed: nat, now: nat)
    requires c >= 1 && Sane(b, c, lastUsed) && Idle(lastUsed, now)
    ensures b.lastUpdate <= now
    ensures SameBalance(Refill(b, c, now), Refill(Fresh(c, now), c, now))
       <==> b.tokens + Earned(c, now - b.lastUpdate) >= c
  {
    IdleEarns(c, b.lastUpdate, lastUsed, now);
  }

  lemma SameFirstStep(b1: Bucket, b2: Bucket, c: nat, call: Call)
    requires SameBalance(Refill(b1, c, call.at), Refill(b2, c, call.at)) && !call.op.WindowRemaining?
    ensures SameBalance(Step(b1, c, call), Step(b2, c, call))
    ensures Taken(b1, c, call) == Taken(b2, c, call)
  {}

  /** A debt of at most eight capacities is always repaid by then, whatever runs follow. */
  lemma CleanupTransparent(b: Bucket, c: nat, lastUsed: nat, run: seq<Call>)
    requires c >= 1 && Sane(b, c, lastUsed) && b.tokens >= -8 * c
    requires run != [] && Idle(lastUsed, run[0].at) && !run[0].op.WindowRemaining?
    ensures Deducted(b, c, run) == Deducted(Fresh(c, run[0].at), c, run)
    ensures SameBalance(Run(b, c, run), Run(Fresh(c, run[0].at), c, run))
  {
    var now := run[0].at;
    IdleEarns(c, b.lastUpdate, lastUsed, now);
    CleanupExact(b, c, lastUsed, now);
    SameFirstStep(b, Fresh(c, now), c, run[0]);
    SameBalanceSameRuns(Step(b, c, run[0]), Step(Fresh(c, now), c, run[0]), c, run[1..]);
  }

  /** Not every call on a dropped key refills: a check refused for its request rate, or a
      read of the statistics, recreates the limiter full at t1.  A first refill at t2 then
      sees what the kept one would show if and only if it happens at once or earns tokens. */
  lemma RecreatedExactly(b: Bucket, c: nat, lastUsed: nat, t1: nat, t2: nat)
    requires c >= 1 && Sane(b, c, lastUsed) && b.tokens >= -8 * c && Idle(lastUsed, t1) && t1 <= t2
    ensures SameBalance(Refill(b, c, t2), Refill(Fresh(c, t1), c, t2)) <==> t1 == t2 || Earned(c, t2 - t1) > 0
  {
    IdleStays(lastUsed, t1, t2);
    IdleEarns(c, b.lastUpdate, lastUsed, t2);
    assert Refill(b, c, t2).tokens == c && Refill(b, c, t2).lastUpdate == t2;
  }

  lemma IdleStays(lastUsed: nat, t1: nat, t2: nat)
    requires Idle(lastUsed, t1) && t1 <= t2
    ensures Idle(lastUsed, t2)
  {}

  /** All later runs that begin with a refill at t2 deduct the same from the recreated bucket
      as from the kept one. */
  ghost predicate SameFrom(b1: Bucket, b2: Bucket, c: nat, t2: nat) {
    forall run: seq<Call> :: run != [] && Timed(t2, run) && run[0].at == t2 && !run[0].op.WindowRemaining? ==>
      Deducted(b1, c, run) == Deducted(b2, c, run)
  }

  /** The first instant from t1 on that earns a token. */
  function FirstToken(c: nat, t1: nat): nat
    requires c >= 1
  {
    t1 + (MS_PER_MINUTE + c - 1) / c * NS_PER_MS
  }

  lemma FirstTokenIs(c: nat, t1: nat, t2: nat)
    requires c >= 1 && t1 < t2 && Earned(c, t2 - t1) == 0
    ensures var t3 := FirstToken(c, t1); t2 < t3 && Earned(c, t3 - t1) >= 1 && Earned(c, t3 - t2) == 0
  {
    var m := (MS_PER_MINUTE + c - 1) / c;
    CeilingMeans(MS_PER_MINUTE, c, m);
    assert m >= 1 && (m - 1) * c < MS_PER_MINUTE by { CeilingMeans(MS_PER_MINUTE, c, 0); CeilingMeans(MS_PER_MINUTE, c, m - 1); }
    MsOf(m);
    if t2 - t1 >= m * NS_PER_MS { MulMono(m, (t2 - t1) / NS_PER_MS, c); }
    var late := FirstToken(c, t1) - t2;
    assert late / NS_PER_MS <= m - 1;
    MulMono(late / NS_PER_MS, m - 1, c);
  }

  lemma MsOf(m: nat)
    ensures m * NS_PER_MS / NS_PER_MS == m
  {}

  /** MAIN RESULT (exact condition): dropping an idle limiter with a debt of at most eight
      capacities, and recreating it at t1 by a call that does not refill it, is invisible to
      all later runs if and only if the first refill happens at once or earns tokens. */
  lemma CleanupInvisibleExactly(b: Bucket, c: nat, lastUsed: nat, t1: nat, t2: nat)
    requires c >= 1 && Sane(b, c, lastUsed) && b.tokens >= -8 * c && Idle(lastUsed, t1) && t1 <= t2
    ensures SameFrom(b, Fresh(c, t1), c, t2) <==> t1 == t2 || Earned(c, t2 - t1) > 0
  {
    var recreated := Fresh(c, t1);
    RecreatedExactly(b, c, lastUsed, t1, t2);
    if t1 == t2 || Earned(c, t2 - t1) > 0 {
      forall run: seq<Call> | run != [] && Timed(t2, run) && run[0].at == t2 && !run[0].op.WindowRemaining?
        ensures Deducted(b, c, run) == Deducted(recreated, c, run)
      {
        SameFirstStep(b, recreated, c, run[0]);
        SameBalanceSameRuns(Step(b, c, run[0]), Step(recreated, c, run[0]), c, run[1..]);
      }
    } else {
      IdleStays(lastUsed, t1, t2);
      IdleEarns(c, b.lastUpdate, lastUsed, t2);
      FirstTokenIs(c, t1, t2);
      OneMoreToken(b, recreated, c, t2, FirstToken(c, t1));
    }
  }

  /** Emptied at t2, the recreated bucket has a token at t3, the kept one has none. */
  lemma OneMoreToken(b: Bucket, recreated: Bucket, c: nat, t2: nat, t3: nat)
    requires c >= 1 && t2 <= t3 && Earned(c, t3 - t2) == 0
    requires Refill(b, c, t2).tokens == c && Refill(b, c, t2).lastUpdate == t2
    requires Refill(recreated, c, t2).tokens == c && recreated.lastUpdate <= t2 && Refill(recreated, c, t2).lastUpdate == recreated.lastUpdate
    requires Earned(c, t3 - recreated.lastUpdate) >= 1
    ensures !SameFrom(b, recreated, c, t2)
  {
    var first, second := Call(CheckN(c), t2, t2), Call(CheckN(1), t3, t3);
    var run := [first, second];
    assert run[1..] == [second] && [second][1..] == [];
    assert Timed(t2, run);
    RunShort(Step(b, c, first), c, [second]);
    RunShort(Step(recreated, c, first), c, [second]);
    assert Deducted(b, c, run) == c && Deducted(recreated, c, run) == c + 1;
  }

  /** A larger debt is forgiven: ten minutes after the last call the recreated limiter
      admits a whole capacity, the kept one not a single token more than it owes. */
  lemma CleanupForgivesDebt(c: nat, debt: nat)
    requires c >= 1 && debt > 9 * c
    ensures var b := Bucket(0 - debt, 0, 0, 0);
      && Idle(0, IDLE_SECS * NS_PER_SEC)
      && Admits(Fresh(c, IDLE_SECS * NS_PER_SEC), c, c, IDLE_SECS * NS_PER_SEC)
      && Refill(b, c, IDLE_SECS * NS_PER_SEC).tokens == 10 * c - debt < c
  {
    assert Earned(c, IDLE_SECS * NS_PER_SEC) == 600_000 * c / 60_000 == 10 * c;
  }
}
