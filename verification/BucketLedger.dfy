/** Accounting on one TPM bucket: the statistics window, the two-phase protocol of
    requests (reserve one token, settle the rest), and machine arithmetic. */
module BucketLedger {
  import opened Basics
  import opened TokenBucket
  import opened BucketRuns

  // ---- the statistics window ----

  /** Tokens deducted by the calls of a run whose window clock read `since` or later. */
  function TakenSince(b: Bucket, c: nat, run: seq<Call>, since: int): nat
    decreases run
  {
    if run == [] then 0 else
      (if run[0].statAt >= since then Taken(b, c, run[0]) else 0)
      + TakenSince(Step(b, c, run[0]), c, run[1..], since)
  }

  /** Over any run the window either stays and accumulates, or was reopened more than a
      minute later and holds exactly what was taken since. */
  lemma {:induction false} WindowAccumulates(b: Bucket, c: nat, run: seq<Call>, t0: nat)
    requires b.windowStart <= t0 && b.windowConsumed <= U64_MAX && Timed(t0, run)
    requires forall k :: 0 <= k < |run| ==> Amount(run[k].op) <= U64_MAX
    ensures var b' := Run(b, c, run);
      || (b'.windowStart == b.windowStart
          && b'.windowConsumed == SaturatingAdd(b.windowConsumed, TakenSince(b, c, run, b.windowStart)))
      || (b'.windowStart > b.windowStart + MINUTE
          && b'.windowConsumed == SaturatingAdd(0, TakenSince(b, c, run, b'.windowStart)))
    decreases run
  {
    if run != [] {
      var b1 := Step(b, c, run[0]);
      WindowAccumulates(b1, c, run[1..], run[0].statAt);
    }
  }

  function Amount(op: Op): nat {
    match op
    case CheckN(n) => n
    case ConsumeN(n) => n
    case Remaining => 0
    case WindowRemaining => 0
  }

  /** In every reachable state the window counter is the (saturating) sum of everything
      deducted since the window opened. */
  lemma WindowLedger(c: nat, t0: nat, run: seq<Call>)
    requires c >= 1 && Timed(t0, run)
    requires forall k :: 0 <= k < |run| ==> Amount(run[k].op) <= U64_MAX
    ensures var b := Run(Fresh(c, t0), c, run);
      b.windowConsumed == SaturatingAdd(0, TakenSince(Fresh(c, t0), c, run, b.windowStart))
  {
    WindowAccumulates(Fresh(c, t0), c, run, t0);
  }

  /** No token was deducted at a window reading in [from, to). */
  predicate NoneTakenIn(b: Bucket, c: nat, run: seq<Call>, from: int, to: int)
    decreases run
  {
    run == [] || (
      && (from <= run[0].statAt < to ==> Taken(b, c, run[0]) == 0)
      && NoneTakenIn(Step(b, c, run[0]), c, run[1..], from, to))
  }

  lemma {:induction false} TakenSinceSame(b: Bucket, c: nat, run: seq<Call>, from: int, to: int)
    requires from <= to
    ensures TakenSince(b, c, run, from) >= TakenSince(b, c, run, to)
    ensures TakenSince(b, c, run, from) == TakenSince(b, c, run, to) <==> NoneTakenIn(b, c, run, from, to)
    decreases run
  {
    if run != [] { TakenSinceSame(Step(b, c, run[0]), c, run[1..], from, to); }
  }

  /** At a read the window is at most a minute old, so the reported balance is never below
      capacity minus the consumption of the last minute; and it equals it exactly when no
      deduction of the last minute precedes the last reopening of the window (and the
      consumption fits the counter). */
  lemma WindowReport(c: nat, t0: nat, run: seq<Call>, at: nat)
    requires c >= 1 && Timed(t0, run + [Call(WindowRemaining, at, at)])
    requires forall k :: 0 <= k < |run| ==> Amount(run[k].op) <= U64_MAX
    ensures var b0 := Fresh(c, t0);
      var b := AfterWindowRead(Run(b0, c, run), at);
      var lastMinute := TakenSince(b0, c, run, at - 60_000_000_000);
      && Elapsed(b.windowStart, at) <= 60_000_000_000
      && c - b.windowConsumed >= c - lastMinute
      && (c - b.windowConsumed == c - lastMinute <==>
          NoneTakenIn(b0, c, run, at - 60_000_000_000, b.windowStart) && lastMinute <= U64_MAX)
  {
    var b0, read := Fresh(c, t0), Call(WindowRemaining, at, at);
    var b := AfterWindowRead(Run(b0, c, run), at);
    assert b.windowConsumed == SaturatingAdd(0, TakenSince(b0, c, run, b.windowStart)) by {
      ReadLedger(c, t0, run, read);
    }
    TakenSinceSame(b0, c, run, at - MINUTE, b.windowStart);
  }

  lemma ReadLedger(c: nat, t0: nat, run: seq<Call>, read: Call)
    requires c >= 1 && Timed(t0, run + [read]) && read.op.WindowRemaining?
    requires forall k :: 0 <= k < |run| ==> Amount(run[k].op) <= U64_MAX
    ensures var b := AfterWindowRead(Run(Fresh(c, t0), c, run), read.statAt);
      b.windowConsumed == SaturatingAdd(0, TakenSince(Fresh(c, t0), c, run, b.windowStart))
  {
    var b0 := Fresh(c, t0);
    RunAppend(b0, c, run, [read]);
    RunShort(Run(b0, c, run), c, [read]);
    WindowLedger(c, t0, run + [read]);
    TakenSinceSplit(b0, c, run, read, AfterWindowRead(Run(b0, c, run), read.statAt).windowStart);
  }

  lemma {:induction false} TakenSinceSplit(b: Bucket, c: nat, run: seq<Call>, read: Call, w: int)
    requires read.op.WindowRemaining?
    ensures TakenSince(b, c, run + [read], w) == TakenSince(b, c, run, w)
    decreases run
  {
    if run == [] {
      assert run + [read] == [read];
      assert [read][1..] == [];
    } else {
      assert (run + [read])[1..] == run[1..] + [read];
      TakenSinceSplit(Step(b, c, run[0]), c, run[1..], read, w);
    }
  }

  /** The report can be above "capacity minus the last minute" by any amount: reopening the
      window forgets a deduction that is only two seconds old. */
  lemma WindowForgets(c: nat, x: nat, y: nat)
    requires x <= U64_MAX
    ensures var b0 := Fresh(c, 0);
      var run := [Call(ConsumeN(x), 59_000_000_000, 59_000_000_000),
                  Call(ConsumeN(y), 61_000_000_000, 61_000_000_000)];
      && Timed(0, run)
      && TakenSince(b0, c, run, 61_000_000_000 - MINUTE) == x + y
      && AfterWindowRead(Run(b0, c, run), 61_000_000_000).windowConsumed == y
  {
    var first, second := Call(ConsumeN(x), 59_000_000_000, 59_000_000_000), Call(ConsumeN(y), 61_000_000_000, 61_000_000_000);
    var b1 := Step(Fresh(c, 0), c, first);
    assert b1.windowStart == 0 && b1.windowConsumed == x;
    var b2 := Step(b1, c, second);
    assert b2.windowStart == 61_000_000_000 && b2.windowConsumed == y;
    assert [first, second][1..] == [second] && [second][1..] == [];
    assert Run(b1, c, [second]) == b2;
    assert TakenSince(b1, c, [second], 1_000_000_000) == y;
  }

  // ---- the two-phase protocol on one bucket ----

  /** What the requests sharing a bucket do to it: reserve one token, settle a response
      that reported `usage` tokens, or end without settling; and the reads of the balance
      and of the statistics window. */
  datatype Act =
    | Reserve(at: nat, statAt: nat)
    | Settle(usage: nat, at: nat, statAt: nat)
    | Drop
    | Poll(at: nat)
    | Report(at: nat)

  datatype Shared = Shared(bucket: Bucket, inflight: nat, admitted: nat, settled: seq<nat>, deducted: nat)

  function Opening(c: nat, t0: nat): Shared {
    Shared(Fresh(c, t0), 0, 0, [], 0)
  }

  /** Deducted when a response is settled; usage below two costs nothing more. */
  function Remainder(usage: nat): nat {
    if usage > 1 then usage - 1 else 0
  }

  predicate Enabled(s: Shared, c: nat, K: nat, M: nat, a: Act) {
    match a
    case Reserve(at, _) => Admits(s.bucket, c, 1, at) ==> s.inflight < K
    case Settle(usage, _, _) => s.inflight > 0 && usage <= M
    case Drop => s.inflight > 0
    case Poll(_) => true
    case Report(_) => true
  }

  /** Whoever is in flight may settle up to M tokens or drop out; reads are always possible. */
  lemma EnabledExactly(s: Shared, c: nat, K: nat, M: nat, usage: nat, at: nat, statAt: nat)
    ensures Enabled(s, c, K, M, Settle(usage, at, statAt)) <==> s.inflight >= 1 && usage <= M
    ensures Enabled(s, c, K, M, Drop) <==> s.inflight >= 1
    ensures Enabled(s, c, K, M, Poll(at)) && Enabled(s, c, K, M, Report(at))
  {}

  function Next(s: Shared, c: nat, a: Act): Shared {
    match a
    case Reserve(at, statAt) =>
      var s' := s.(bucket := AfterCheck(s.bucket, c, 1, at, statAt));
      if Admits(s.bucket, c, 1, at)
      then s'.(inflight := s.inflight + 1, admitted := s.admitted + 1, deducted := s.deducted + 1)
      else s'
    case Settle(usage, at, statAt) =>
      var s' := s.(inflight := if s.inflight > 0 then s.inflight - 1 else 0, settled := s.settled + [usage]);
      if Remainder(usage) > 0
      then s'.(bucket := AfterConsume(s.bucket, c, usage - 1, at, statAt), deducted := s.deducted + Remainder(usage))
      else s'
    case Drop => s.(inflight := if s.inflight > 0 then s.inflight - 1 else 0)
    case Poll(at) => s.(bucket := Refill(s.bucket, c, at))
    case Report(at) => s.(bucket := AfterWindowRead(s.bucket, at))
  }

  function After(c: nat, t0: nat, acts: seq<Act>): Shared {
    if acts == [] then Opening(c, t0) else Next(After(c, t0, acts[..|acts| - 1]), c, acts[|acts| - 1])
  }

  predicate Legal(c: nat, t0: nat, K: nat, M: nat, acts: seq<Act>) {
    acts == [] || (
      && Legal(c, t0, K, M, acts[..|acts| - 1])
      && Enabled(After(c, t0, acts[..|acts| - 1]), c, K, M, acts[|acts| - 1]))
  }

  /** MAIN RESULT: with at most K requests in flight, each of at most M tokens, the balance
      never falls below what the requests that are not in flight can have overdrawn. */
  lemma {:induction false} OverdraftBound(c: nat, t0: nat, K: nat, M: nat, acts: seq<Act>)
    requires c >= 1 && M >= 1 && Legal(c, t0, K, M, acts)
    ensures var s := After(c, t0, acts);
      && s.inflight <= K
      && Floor(K, s.inflight, M) <= s.bucket.tokens <= c
      && 0 - K * (M - 1) <= s.bucket.tokens
    decreases acts
  {
    var s := After(c, t0, acts);
    if acts != [] {
      var p := After(c, t0, acts[..|acts| - 1]);
      OverdraftBound(c, t0, K, M, acts[..|acts| - 1]);
      OneAct(p, c, K, M, acts[|acts| - 1]);
    } else {
      MulMono(0, K, M - 1);
    }
    MulMono(K - s.inflight, K, M - 1);
  }

  /** The overdraft that the requests not in flight can have caused. */
  function Floor(K: nat, inflight: nat, M: nat): int {
    0 - (K - inflight) * (M - 1)
  }

  lemma FloorSteps(K: nat, inflight: nat, M: nat)
    requires M >= 1 && inflight < K
    ensures Floor(K, inflight + 1, M) == Floor(K, inflight, M) + (M - 1)
    ensures Floor(K, inflight + 1, M) <= 0
  {
    Successor(K - inflight - 1, M - 1);
    MulMono(0, K - inflight - 1, M - 1);
  }

  lemma OneAct(p: Shared, c: nat, K: nat, M: nat, a: Act)
    requires M >= 1 && p.inflight <= K && Enabled(p, c, K, M, a)
    requires Floor(K, p.inflight, M) <= p.bucket.tokens <= c
    ensures Next(p, c, a).inflight <= K
    ensures Floor(K, Next(p, c, a).inflight, M) <= Next(p, c, a).bucket.tokens <= c
  {
    if p.inflight < K { FloorSteps(K, p.inflight, M); }
    if p.inflight > 0 { FloorSteps(K, p.inflight - 1, M); }
  }

  function WorstCase(K: nat, M: nat, k: nat): seq<Act> {
    if k == 0 then [] else
      WorstCase(K, M, k - 1) + [if k <= K then Reserve(0, 0) else Settle(M, 0, 0)]
  }

  function WorstTokens(K: nat, M: nat, k: nat): int {
    if k <= K then K - k else 0 - (k - K) * (M - 1)
  }

  lemma {:induction false} WorstCaseState(K: nat, M: nat, k: nat)
    requires K >= 1 && M >= 1 && k <= 2 * K
    ensures Legal(K, 0, K, M, WorstCase(K, M, k))
    ensures var s := After(K, 0, WorstCase(K, M, k));
      && s.bucket.lastUpdate == 0
      && s.inflight == (if k <= K then k else 2 * K - k)
      && s.bucket.tokens == WorstTokens(K, M, k)
  {
    if k > 0 {
      WorstCaseState(K, M, k - 1);
      var acts := WorstCase(K, M, k);
      assert acts[..|acts| - 1] == WorstCase(K, M, k - 1);
      WorstStep(After(K, 0, acts[..|acts| - 1]), K, M, k);
    }
  }

  lemma WorstStep(p: Shared, K: nat, M: nat, k: nat)
    requires M >= 1 && 1 <= k <= 2 * K && p.bucket.lastUpdate == 0
    requires p.inflight == (if k - 1 <= K then k - 1 else 2 * K - (k - 1))
    requires p.bucket.tokens == WorstTokens(K, M, k - 1)
    ensures var a := if k <= K then Reserve(0, 0) else Settle(M, 0, 0);
      && Enabled(p, K, K, M, a)
      && Next(p, K, a).bucket.lastUpdate == 0
      && Next(p, K, a).inflight == (if k <= K then k else 2 * K - k)
      && Next(p, K, a).bucket.tokens == WorstTokens(K, M, k)
  {
    assert Earned(K, 0) == 0;
    if k > K {
      Successor(k - 1 - K, M - 1);
    }
  }

  /** The bound is reached: K requests of M tokens each on a full bucket of capacity K. */
  lemma OverdraftReached(K: nat, M: nat)
    requires K >= 1 && M >= 1
    ensures exists acts ::
      && Legal(K, 0, K, M, acts)
      && After(K, 0, acts).inflight == 0
      && After(K, 0, acts).bucket.tokens == 0 - K * (M - 1)
  {
    WorstCaseState(K, M, 2 * K);
    assert WorstTokens(K, M, 2 * K) == 0 - K * (M - 1) by { assert 2 * K - K == K; }
    var acts := WorstCase(K, M, 2 * K);
    assert Legal(K, 0, K, M, acts) && After(K, 0, acts).inflight == 0;
  }

  function Charges(settled: seq<nat>): nat {
    if settled == [] then 0
    else Charges(settled[..|settled| - 1]) + AtLeastOne(settled[|settled| - 1])
  }

  /** The two-phase ledger: the lifetime deductions of a bucket are max(1, usage) for every
      settled admission and one for every other one. */
  lemma {:induction false} TwoPhaseLedger(c: nat, t0: nat, K: nat, M: nat, acts: seq<Act>)
    requires Legal(c, t0, K, M, acts)
    ensures var s := After(c, t0, acts);
      && |s.settled| + s.inflight <= s.admitted
      && s.deducted == Charges(s.settled) + (s.admitted - |s.settled|)
    decreases acts
  {
    if acts != [] {
      var a, s := acts[|acts| - 1], After(c, t0, acts);
      var p := After(c, t0, acts[..|acts| - 1]);
      TwoPhaseLedger(c, t0, K, M, acts[..|acts| - 1]);
      if a.Settle? { assert s.settled[..|s.settled| - 1] == p.settled; }
    }
  }

  /** The acts of requests are calls on the bucket, so every result about runs of calls
      applies: `deducted` is what those calls deducted. */
  function CallsOf(acts: seq<Act>): seq<Call> {
    if acts == [] then [] else CallsOf(acts[..|acts| - 1]) + CallsIn(acts[|acts| - 1])
  }

  function CallsIn(a: Act): (calls: seq<Call>)
    ensures |calls| <= 1
  {
    match a
    case Reserve(at, statAt) => [Call(CheckN(1), at, statAt)]
    case Settle(usage, at, statAt) => if Remainder(usage) > 0 then [Call(ConsumeN(usage - 1), at, statAt)] else []
    case Drop => []
    case Poll(at) => [Call(Remaining, at, at)]
    case Report(at) => [Call(WindowRemaining, at, at)]
  }

  lemma ActIsCall(p: Shared, c: nat, a: Act)
    ensures Next(p, c, a).bucket == Run(p.bucket, c, CallsIn(a))
    ensures Next(p, c, a).deducted == p.deducted + Deducted(p.bucket, c, CallsIn(a))
  {
    RunShort(p.bucket, c, CallsIn(a));
  }

  lemma {:induction false} ActsAreCalls(c: nat, t0: nat, acts: seq<Act>)
    ensures After(c, t0, acts).bucket == Run(Fresh(c, t0), c, CallsOf(acts))
    ensures After(c, t0, acts).deducted == Deducted(Fresh(c, t0), c, CallsOf(acts))
    decreases acts
  {
    if acts != [] {
      var before, a := acts[..|acts| - 1], acts[|acts| - 1];
      ActsAreCalls(c, t0, before);
      ActIsCall(After(c, t0, before), c, a);
      RunAppend(Fresh(c, t0), c, CallsOf(before), CallsIn(a));
    }
  }

  // ---- machine arithmetic ----

  const TWO63: int := 0x8000_0000_0000_0000
  const TWO128: int := TWO64 * TWO64

  function U64(x: int): int { x % TWO64 }
  function U128(x: int): int { x % TWO128 }

  /** Two's complement reading of the low 64 bits. */
  function I64(x: int): int {
    var u := x % TWO64;
    if u < TWO63 then u else u - TWO64
  }

  /** The refill as the machine computes it, every operation and cast wrapped. */
  function MachineRefill(b: Bucket, c: nat, now: nat): Bucket {
    var elapsedMs := U64(Elapsed(b.lastUpdate, now) / NS_PER_MS);
    var add := I64(U128(elapsedMs * c) / MS_PER_MINUTE);
    if elapsedMs > 0 && add > 0 then
      var sum := I64(b.tokens + add);
      b.(tokens := if sum <= I64(c) then sum else I64(c), lastUpdate := now)
    else b
  }

  function MachineDeduct(tokens: int, n: nat): int {
    I64(tokens - I64(n))
  }

  predicate MachineAdmits(tokens: int, n: nat) {
    tokens >= I64(n)
  }

  /** capacity.saturating_sub(consumed), after casting both. */
  function MachineReport(c: nat, consumed: nat): int {
    var d := I64(c) - I64(consumed);
    if d < -TWO63 then -TWO63 else if d >= TWO63 then TWO63 - 1 else d
  }

  predicate FitsI64(x: int) {
    -TWO63 <= x < TWO63
  }

  lemma SmallIsExact(x: int)
    requires FitsI64(x)
    ensures I64(x) == x
    ensures x >= 0 ==> U64(x) == x
  {}

  lemma I64Range(x: int)
    ensures FitsI64(I64(x))
  {}

  /** What the machine adds for `ms` milliseconds is the exact amount, cast. */
  lemma MachineAdd(b: Bucket, c: nat, now: nat)
    requires c < TWO63 && now < TWO63
    ensures U64(Elapsed(b.lastUpdate, now) / NS_PER_MS) == Elapsed(b.lastUpdate, now) / NS_PER_MS
    ensures I64(U128(Elapsed(b.lastUpdate, now) / NS_PER_MS * c) / MS_PER_MINUTE)
         == I64(Earned(c, Elapsed(b.lastUpdate, now)))
  {
    var ms := Elapsed(b.lastUpdate, now) / NS_PER_MS;
    ProductFits(ms, c);
  }

  lemma ProductFits(ms: nat, c: nat)
    requires ms < TWO63 && c < TWO63
    ensures U128(ms * c) == ms * c
  {
    MulMono(ms, TWO63, c);
    assert TWO63 * c <= TWO63 * TWO63;
  }

  /** MAIN RESULT (exact condition): the machine's refill is the exact one if and only if
      the sum of balance and earned tokens fits an i64 - or the cast of the earned tokens
      happens to leave enough to fill the bucket. */
  lemma MachineRefillExactly(b: Bucket, c: nat, now: nat)
    requires 1 <= c < TWO63 && now < TWO63 && -TWO63 <= b.tokens <= c
    ensures var earned := Earned(c, Elapsed(b.lastUpdate, now));
      MachineRefill(b, c, now) == Refill(b, c, now) <==>
      if earned < TWO63 then b.tokens + earned < TWO63
      else I64(earned) > 0 && c <= b.tokens + I64(earned) < TWO63
  {
    MachineAdd(b, c, now);
    MachineRefillFrom(b, c, now, Elapsed(b.lastUpdate, now) / NS_PER_MS, Earned(c, Elapsed(b.lastUpdate, now)));
  }

  lemma MachineRefillFrom(b: Bucket, c: nat, now: nat, ms: nat, earned: nat)
    requires ms == Elapsed(b.lastUpdate, now) / NS_PER_MS && earned == Earned(c, Elapsed(b.lastUpdate, now))
    requires U64(ms) == ms && I64(U128(ms * c) / MS_PER_MINUTE) == I64(earned)
    requires 1 <= c < TWO63 && -TWO63 <= b.tokens <= c
    ensures MachineRefill(b, c, now) == Refill(b, c, now) <==>
      if earned < TWO63 then b.tokens + earned < TWO63
      else I64(earned) > 0 && c <= b.tokens + I64(earned) < TWO63
  {
    SmallIsExact(c);
    if earned == 0 {
      SmallIsExact(0);
    } else {
      CastSum(b.tokens, earned, c);
      CastRefill(b, c, now, ms, earned);
    }
  }

  function Least(x: int, y: int): int {
    if x <= y then x else y
  }

  lemma CastRefill(b: Bucket, c: nat, now: nat, ms: nat, earned: nat)
    requires ms == Elapsed(b.lastUpdate, now) / NS_PER_MS && earned == Earned(c, Elapsed(b.lastUpdate, now)) > 0
    requires U64(ms) == ms && I64(U128(ms * c) / MS_PER_MINUTE) == I64(earned) && I64(c) == c
    ensures MachineRefill(b, c, now) == Refill(b, c, now) <==>
      I64(earned) > 0 && Least(I64(b.tokens + I64(earned)), c) == Least(b.tokens + earned, c)
  {
    assert b.lastUpdate < now && ms > 0;
  }

  /** The cast sum equals the exact one, both capped, in exactly these cases. */
  lemma CastSum(tokens: int, earned: nat, c: nat)
    requires 1 <= c < TWO63 && -TWO63 <= tokens <= c && earned > 0
    ensures var a := I64(earned);
      (a > 0 && Least(I64(tokens + a), c) == Least(tokens + earned, c))
      <==> if earned < TWO63 then tokens + earned < TWO63 else a > 0 && c <= tokens + a < TWO63
  {
    var a := I64(earned);
    if earned < TWO63 { SmallIsExact(earned); }
    if a > 0 {
      if tokens + a < TWO63 { SmallIsExact(tokens + a); } else { assert I64(tokens + a) == tokens + a - TWO64; }
    }
  }

  /** In particular a full bucket survives one minute's refill only below 2^62 tokens. */
  lemma FullMinute(c: nat, t: nat)
    requires 1 <= c < TWO63 && t + MINUTE < TWO63
    ensures MachineRefill(Fresh(c, t), c, t + MINUTE) == Refill(Fresh(c, t), c, t + MINUTE) <==> c < TWO63 / 2
  {
    MachineRefillExactly(Fresh(c, t), c, t + MINUTE);
    assert MINUTE / NS_PER_MS * c == MS_PER_MINUTE * c;
    assert Earned(c, MINUTE) == c;
  }

  lemma MachineDeductExactly(tokens: int, n: nat)
    requires FitsI64(tokens) && n <= U64_MAX
    ensures MachineDeduct(tokens, n) == tokens - n <==> tokens - n >= -TWO63
  {
    I64Range(tokens - I64(n));
    I64Wraps(tokens - n);
    assert I64(n) == n || I64(n) == n - TWO64;
    if tokens - n >= -TWO63 { SmallIsExact(tokens - n); }
  }

  lemma I64Wraps(x: int)
    ensures I64(x + TWO64) == I64(x)
  {}

  lemma MachineAdmitsExactly(tokens: int, n: nat)
    requires FitsI64(tokens) && n <= U64_MAX
    ensures MachineAdmits(tokens, n) == (tokens >= n) <==> n < TWO63 || tokens < n - TWO64
  {}

  lemma MachineReportExactly(c: nat, consumed: nat)
    requires c < TWO63 && consumed <= U64_MAX
    ensures MachineReport(c, consumed) == c - consumed <==> consumed < TWO63
  {}

  /** The deficit of a refused check, from which the delay is computed. */
  function MachineDeficit(tokens: int, n: nat): int {
    I64(I64(n) - tokens)
  }

  lemma MachineDeficitExactly(tokens: int, n: nat)
    requires FitsI64(tokens) && tokens < n < TWO63
    ensures MachineDeficit(tokens, n) == n - tokens <==> n - tokens < TWO63
  {
    SmallIsExact(n);
    I64Range(n - tokens);
    if n - tokens < TWO63 { SmallIsExact(n - tokens); }
  }

  /** Under the protocol's own bounds nothing overflows as long as capacity and earned
      tokens, and the debt and the next amount, fit an i64 together. */
  lemma ProtocolNeverOverflows(c: nat, t0: nat, K: nat, M: nat, acts: seq<Act>, n: nat, now: nat)
    requires 1 <= c < TWO63 && M >= 1 && K * (M - 1) + n <= TWO63
    requires Legal(c, t0, K, M, acts) && now < TWO63
    requires c + Earned(c, Elapsed(After(c, t0, acts).bucket.lastUpdate, now)) < TWO63
    ensures var b := After(c, t0, acts).bucket;
      var tokens := Refill(b, c, now).tokens;
      && MachineRefill(b, c, now) == Refill(b, c, now)
      && MachineDeduct(tokens, n) == tokens - n
      && (tokens < n < TWO63 ==> (MachineDeficit(tokens, n) == n - tokens <==> n - tokens < TWO63))
      && (tokens < n && K * (M - 1) + n < TWO63 ==> MachineDeficit(tokens, n) == n - tokens)
  {
    var b := After(c, t0, acts).bucket;
    OverdraftBound(c, t0, K, M, acts);
    MulMono(0, K, M - 1);
    MachineRefillExactly(b, c, now);
    var tokens := Refill(b, c, now).tokens;
    MachineDeductExactly(tokens, n);
    if tokens < n < TWO63 { MachineDeficitExactly(tokens, n); }
  }

  // ---- whole runs of the machine ----

  function MachineFresh(c: nat, now: nat): Bucket {
    Bucket(I64(if c == 0 then 1 else c), now, now, 0)
  }

  lemma MachineFreshExact(c: nat, now: nat)
    requires c < TWO63
    ensures MachineFresh(c, now) == Fresh(c, now)
  {
    SmallIsExact(c);
    SmallIsExact(1);
  }

  /** check_n and consume_n as the machine runs them; the window never wraps, it saturates. */
  function MachineStep(b: Bucket, c: nat, call: Call): Bucket {
    match call.op
    case CheckN(n) =>
      var r := MachineRefill(b, c, call.at);
      if MachineAdmits(r.tokens, n) then Track(r.(tokens := MachineDeduct(r.tokens, n)), n, call.statAt) else r
    case ConsumeN(n) =>
      var r := MachineRefill(b, c, call.at);
      Track(r.(tokens := MachineDeduct(r.tokens, n)), n, call.statAt)
    case Remaining => MachineRefill(b, c, call.at)
    case WindowRemaining => AfterWindowRead(b, call.statAt)
  }

  function MachineAfter(c: nat, t0: nat, acts: seq<Act>): Bucket {
    if acts == [] then MachineFresh(c, t0) else
      var b, calls := MachineAfter(c, t0, acts[..|acts| - 1]), CallsIn(acts[|acts| - 1]);
      if calls == [] then b else MachineStep(b, c, calls[0])
  }

  /** All clock readings of the acts are at most `end`. */
  predicate Until(acts: seq<Act>, end: nat) {
    forall k :: 0 <= k < |acts| && CallsIn(acts[k]) != [] ==> CallsIn(acts[k])[0].at <= end
  }

  lemma EarnedMono(c: nat, d1: nat, d2: nat)
    requires d1 <= d2
    ensures Earned(c, d1) <= Earned(c, d2)
  {
    MulMono(d1 / NS_PER_MS, d2 / NS_PER_MS, c);
  }

  /** One call, if nothing in it overflows. */
  lemma MachineStepExact(b: Bucket, c: nat, call: Call)
    requires 1 <= c < TWO63 && call.at < TWO63 && -TWO63 <= b.tokens <= c
    requires c + Earned(c, Elapsed(b.lastUpdate, call.at)) < TWO63
    requires call.op.CheckN? || call.op.ConsumeN? ==> call.op.n < TWO63 && -TWO63 <= Step(b, c, call).tokens
    ensures MachineStep(b, c, call) == Step(b, c, call)
  {
    MachineRefillExactly(b, c, call.at);
    var tokens := Refill(b, c, call.at).tokens;
    if call.op.CheckN? || call.op.ConsumeN? {
      MachineAdmitsExactly(tokens, call.op.n);
      MachineDeductExactly(tokens, call.op.n);
    }
  }

  lemma {:induction false} NeverBefore(c: nat, t0: nat, acts: seq<Act>)
    ensures After(c, t0, acts).bucket.lastUpdate >= t0
    decreases acts
  {
    if acts != [] {
      var before := acts[..|acts| - 1];
      NeverBefore(c, t0, before);
      NextNotBefore(After(c, t0, before), c, acts[|acts| - 1]);
    }
  }

  lemma NextNotBefore(p: Shared, c: nat, a: Act)
    ensures Next(p, c, a).bucket.lastUpdate >= p.bucket.lastUpdate
  {}

  lemma NextIsStep(p: Shared, c: nat, a: Act)
    ensures Next(p, c, a).bucket == if CallsIn(a) == [] then p.bucket else Step(p.bucket, c, CallsIn(a)[0])
  {}

  /** MAIN RESULT (machine): along every legal history of the protocol the machine's bucket
      is the exact one, if the worst debt, and the capacity with the linear refill of the
      whole uptime, fit an i64. */
  lemma {:induction false} MachineFollowsProtocol(c: nat, t0: nat, K: nat, M: nat, acts: seq<Act>, end: nat)
    requires 1 <= c < TWO63 && 1 <= M <= TWO63 && K * (M - 1) <= TWO63
    requires Legal(c, t0, K, M, acts) && Until(acts, end) && end < TWO63
    requires c + Earned(c, Elapsed(t0, end)) < TWO63
    ensures MachineAfter(c, t0, acts) == After(c, t0, acts).bucket
    decreases acts
  {
    if acts == [] {
      SmallIsExact(c);
    } else {
      var before, a := acts[..|acts| - 1], acts[|acts| - 1];
      MachineFollowsProtocol(c, t0, K, M, before, end);
      NextIsStep(After(c, t0, before), c, a);
      if CallsIn(a) != [] { MachineAct(c, t0, K, M, before, a, end); }
    }
  }

  lemma StepAboveFloor(p: Shared, c: nat, K: nat, M: nat, a: Act)
    requires M >= 1 && p.inflight <= K && Enabled(p, c, K, M, a) && CallsIn(a) != []
    requires Floor(K, p.inflight, M) <= p.bucket.tokens <= c
    ensures 0 - K * (M - 1) <= Step(p.bucket, c, CallsIn(a)[0]).tokens
  {
    NextIsStep(p, c, a);
    OneAct(p, c, K, M, a);
    MulMono(K - Next(p, c, a).inflight, K, M - 1);
  }

  lemma SmallAmounts(p: Shared, c: nat, K: nat, M: nat, a: Act)
    requires 1 <= M <= TWO63 && Enabled(p, c, K, M, a) && CallsIn(a) != []
    ensures var call := CallsIn(a)[0]; call.op.CheckN? || call.op.ConsumeN? ==> call.op.n < TWO63
  {}

  lemma MachineAct(c: nat, t0: nat, K: nat, M: nat, before: seq<Act>, a: Act, end: nat)
    requires 1 <= c < TWO63 && 1 <= M <= TWO63 && K * (M - 1) <= TWO63 && CallsIn(a) != []
    requires Legal(c, t0, K, M, before) && Enabled(After(c, t0, before), c, K, M, a)
    requires CallsIn(a)[0].at <= end < TWO63 && c + Earned(c, Elapsed(t0, end)) < TWO63
    ensures MachineStep(After(c, t0, before).bucket, c, CallsIn(a)[0]) == Step(After(c, t0, before).bucket, c, CallsIn(a)[0])
  {
    var p, call := After(c, t0, before), CallsIn(a)[0];
    OverdraftBound(c, t0, K, M, before);
    assert c + Earned(c, Elapsed(p.bucket.lastUpdate, call.at)) < TWO63 by {
      NeverBefore(c, t0, before);
      EarnedMono(c, Elapsed(p.bucket.lastUpdate, call.at), Elapsed(t0, end));
    }
    StepAboveFloor(p, c, K, M, a);
    SmallAmounts(p, c, K, M, a);
    MachineStepExact(p.bucket, c, call);
  }
}
