/** What a TPM bucket guarantees over whole runs of calls, whoever makes them.

    A run is a sequence of calls in mutex order.  Each call reads the clock once for
    the refill (`at`) and possibly again for the statistics window (`statAt`); both
    reads happen inside the lock, so the readings of a run never go backwards. */
module BucketRuns {
  import opened TokenBucket

  datatype Op = CheckN(n: nat) | ConsumeN(n: nat) | Remaining | WindowRemaining
  datatype Call = Call(op: Op, at: nat, statAt: nat)

  predicate Timed(t0: nat, run: seq<Call>)
    decreases run
  {
    run == [] || (t0 <= run[0].at <= run[0].statAt && Timed(run[0].statAt, run[1..]))
  }

  function Step(b: Bucket, c: nat, call: Call): Bucket {
    match call.op
    case CheckN(n) => AfterCheck(b, c, n, call.at, call.statAt)
    case ConsumeN(n) => AfterConsume(b, c, n, call.at, call.statAt)
    case Remaining => Refill(b, c, call.at)
    case WindowRemaining => AfterWindowRead(b, call.statAt)
  }

  function Run(b: Bucket, c: nat, run: seq<Call>): Bucket
    decreases run
  {
    if run == [] then b else Run(Step(b, c, run[0]), c, run[1..])
  }

  /** Tokens taken out of the bucket by one call. */
  function Taken(b: Bucket, c: nat, call: Call): nat {
    match call.op
    case CheckN(n) => if Admits(b, c, n, call.at) then n else 0
    case ConsumeN(n) => n
    case Remaining => 0
    case WindowRemaining => 0
  }

  function Deducted(b: Bucket, c: nat, run: seq<Call>): nat
    decreases run
  {
    if run == [] then 0 else Taken(b, c, run[0]) + Deducted(Step(b, c, run[0]), c, run[1..])
  }

  // ---- arithmetic of the floored refill ----

  lemma EarnedUpper(c: nat, d: nat)
    ensures MINUTE * Earned(c, d) <= d * c
  {
    var ms := d / NS_PER_MS;
    assert MS_PER_MINUTE * Earned(c, d) <= ms * c;
    assert NS_PER_MS * ms * c <= d * c by { MulMono(NS_PER_MS * ms, d, c); }
    assert NS_PER_MS * ms * c == NS_PER_MS * (ms * c);
  }

  /** `off` bounds how far an instant lies off the clock's whole milliseconds: zero, or a
      millisecond if nothing is known. */
  predicate OnGrid(t: nat, off: nat) {
    off == NS_PER_MS || (off == 0 && t % NS_PER_MS == 0)
  }

  /** A capacity that divides a minute's milliseconds earns whole tokens in whole
      milliseconds, so for it the truncation of the clock costs nothing. */
  predicate WholeTokens(c: nat) {
    c > 0 && MS_PER_MINUTE % c == 0
  }

  /** What makes the floored refill precise up to `off`. */
  predicate Precise(c: nat, t: nat, off: nat) {
    OnGrid(t, off) || (off == 0 && WholeTokens(c))
  }

  lemma EarnedLower(c: nat, d: nat, off: nat)
    requires Precise(c, d, off)
    ensures d * c < MINUTE * (Earned(c, d) + 1) + off * c
  {
    if OnGrid(d, off) { EarnedLowerOnGrid(c, d, off); } else { EarnedLowerWhole(c, d, MS_PER_MINUTE / c); }
  }

  lemma EarnedLowerOnGrid(c: nat, d: nat, off: nat)
    requires OnGrid(d, off)
    ensures d * c < MINUTE * (Earned(c, d) + 1) + off * c
  {
    var ms := d / NS_PER_MS;
    assert ms * c < MS_PER_MINUTE * (Earned(c, d) + 1);
    assert d * c <= (NS_PER_MS * ms + off) * c by { MulMono(d, NS_PER_MS * ms + off, c); }
    assert (NS_PER_MS * ms + off) * c == NS_PER_MS * (ms * c) + off * c;
  }

  lemma EarnedLowerWhole(c: nat, d: nat, g: nat)
    requires c > 0 && c * g == MS_PER_MINUTE
    ensures d * c < MINUTE * (Earned(c, d) + 1)
  {
    var ms, e := d / NS_PER_MS, Earned(c, d);
    assert g * (e + 1) * c == c * g * (e + 1);
    if g * (e + 1) <= ms { MulMono(g * (e + 1), ms, c); }
    MulMono(ms + 1, g * (e + 1), c);
    MulMono(d + 1, NS_PER_MS * (ms + 1), c);
    assert NS_PER_MS * (ms + 1) * c == NS_PER_MS * ((ms + 1) * c);
    Successor(d, c);
  }

  lemma MulMono(a: int, b: int, c: nat)
    requires a <= b
    ensures a * c <= b * c
  {
    assert b * c == a * c + (b - a) * c;
  }

  lemma Distribute(a: int, b: int, c: int)
    ensures (a + b) * c == a * c + b * c
  {}

  lemma Successor(k: nat, q: nat)
    ensures (k + 1) * q == k * q + q
  {}

  /** The units: sixty seconds of nanoseconds earn exactly the capacity, and no shorter time
      earns more than its share. */
  lemma MinuteEarns(c: nat, d: nat)
    ensures Earned(c, 60_000_000_000) == c
    ensures 60_000_000_000 * Earned(c, d) <= d * c < 60_000_000_000 * (Earned(c, d) + 1) + 1_000_000 * c
  {
    EarnedUpper(c, d);
    EarnedLower(c, d, NS_PER_MS);
    assert 60_000_000_000 / NS_PER_MS * c == MS_PER_MINUTE * c;
  }

  // ---- sustained rate ----

  /** Potential of a bucket at an instant, in 1/MINUTE tokens: the balance plus the
      refill that is due.  Refills never raise it, and time raises it at the rate c. */
  function Potential(b: Bucket, c: nat, now: nat): int {
    MINUTE * b.tokens + Elapsed(b.lastUpdate, now) * c
  }

  ghost predicate Sane(b: Bucket, c: nat, now: nat) {
    b.tokens <= c && b.lastUpdate <= now
  }

  lemma StepSane(b: Bucket, c: nat, call: Call, t0: nat)
    requires Sane(b, c, t0) && t0 <= call.at <= call.statAt
    ensures Sane(Step(b, c, call), c, call.statAt)
  {}

  predicate RunPrecise(c: nat, run: seq<Call>, off: nat) {
    forall k :: 0 <= k < |run| ==> Precise(c, run[k].at, off)
  }

  lemma {:induction false} RunStaysPrecise(b: Bucket, c: nat, run: seq<Call>, off: nat)
    requires Precise(c, b.lastUpdate, off) && RunPrecise(c, run, off)
    ensures Precise(c, Run(b, c, run).lastUpdate, off)
    decreases run
  {
    if run != [] {
      assert Precise(c, run[0].at, off);
      RunStaysPrecise(Step(b, c, run[0]), c, run[1..], off);
    }
  }

  lemma {:induction false} RunSane(b: Bucket, c: nat, run: seq<Call>, t0: nat)
    requires Sane(b, c, t0) && Timed(t0, run)
    ensures Sane(Run(b, c, run), c, if run == [] then t0 else run[|run| - 1].statAt)
    decreases run
  {
    if run != [] {
      StepSane(b, c, run[0], t0);
      RunSane(Step(b, c, run[0]), c, run[1..], run[0].statAt);
    }
  }

  lemma RefillPotential(b: Bucket, c: nat, now: nat, off: nat)
    requires Sane(b, c, now) && Precise(c, b.lastUpdate, off) && Precise(c, now, off)
    ensures Potential(Refill(b, c, now), c, now) <= Potential(b, c, now)
    ensures Potential(Refill(b, c, now), c, now) < MINUTE * (c + 1) + off * c
  {
    EarnedUpper(c, now - b.lastUpdate);
    EarnedLower(c, now - b.lastUpdate, off);
  }

  lemma PotentialGrows(b: Bucket, c: nat, t1: nat, t2: nat)
    requires b.lastUpdate <= t1 <= t2
    ensures Potential(b, c, t2) == Potential(b, c, t1) + (t2 - t1) * c
  {
    assert (t2 - b.lastUpdate) * c == (t1 - b.lastUpdate) * c + (t2 - t1) * c;
  }

  /** One call pays for what it takes out of the potential of the refilled bucket. */
  lemma StepPotential(b: Bucket, c: nat, call: Call)
    requires Sane(b, c, call.at) && call.at <= call.statAt && !call.op.WindowRemaining?
    ensures Potential(Step(b, c, call), c, call.at) + MINUTE * Taken(b, c, call)
         == Potential(Refill(b, c, call.at), c, call.at)
  {}

  /** A call raises the potential, with what it took out added back, by no more than time does. */
  lemma OneCall(b: Bucket, c: nat, call: Call, t: nat, off: nat)
    requires Sane(b, c, t) && t <= call.at <= call.statAt
    requires Precise(c, b.lastUpdate, off) && Precise(c, call.at, off)
    ensures Sane(Step(b, c, call), c, call.at) && Precise(c, Step(b, c, call).lastUpdate, off)
    ensures Potential(Step(b, c, call), c, call.at) + MINUTE * Taken(b, c, call)
         <= Potential(b, c, t) + (call.at - t) * c
    ensures !call.op.WindowRemaining? ==>
      Potential(Step(b, c, call), c, call.at) + MINUTE * Taken(b, c, call) < MINUTE * (c + 1) + off * c
  {
    PotentialGrows(b, c, t, call.at);
    RefillPotential(b, c, call.at, off);
    if !call.op.WindowRemaining? { StepPotential(b, c, call); }
  }

  lemma {:induction false} RunPotential(b: Bucket, c: nat, run: seq<Call>, t: nat)
    requires Sane(b, c, t) && Timed(t, run) && run != []
    ensures t <= run[|run| - 1].at
    ensures MINUTE * Deducted(b, c, run) + MINUTE * Run(b, c, run).tokens
         <= Potential(b, c, t) + (run[|run| - 1].at - t) * c
    decreases run
  {
    var call, rest := run[0], run[1..];
    var b1 := Step(b, c, call);
    OneCall(b, c, call, t, NS_PER_MS);
    if rest != [] {
      RunPotential(b1, c, rest, call.at);
      assert rest[|rest| - 1] == run[|run| - 1];
      assert Deducted(b, c, run) == Taken(b, c, call) + Deducted(b1, c, rest);
      assert Run(b, c, run) == Run(b1, c, rest);
      Distribute(run[|run| - 1].at - call.at, call.at - t, c);
    } else {
      RunShort(b, c, run);
      LastPotential(b1, c, call.at);
    }
  }

  lemma LastPotential(b: Bucket, c: nat, now: nat)
    requires b.lastUpdate <= now
    ensures MINUTE * b.tokens <= Potential(b, c, now)
  {}

  function Span(run: seq<Call>): int
    requires run != []
  {
    run[|run| - 1].at - run[0].at
  }

  /** What a run deducts, in minutes of tokens, is below one capacity (and a token) plus the
      linear refill of its span. */
  ghost predicate BelowRate(b: Bucket, c: nat, run: seq<Call>, off: nat)
    requires run != []
  {
    MINUTE * Deducted(b, c, run) < MINUTE * (c + 1) + (Span(run) + off) * c
  }

  lemma Combine(taken: nat, rest: nat, tokens: nat, potential: int, c: nat, span: int, off: nat)
    requires potential + MINUTE * taken < MINUTE * (c + 1) + off * c
    requires MINUTE * rest + MINUTE * tokens <= potential + span * c
    ensures MINUTE * (taken + rest) < MINUTE * (c + 1) + (span + off) * c
  {
    Distribute(span, off, c);
  }

  /** Same bound with the starting potential replaced by its ceiling, from any reachable bucket. */
  lemma {:induction false} WindowedBound(b: Bucket, c: nat, run: seq<Call>, t: nat, off: nat)
    requires Sane(b, c, t) && Timed(t, run) && run != []
    requires Precise(c, b.lastUpdate, off) && RunPrecise(c, run, off)
    requires Run(b, c, run).tokens >= 0
    ensures BelowRate(b, c, run, off)
    decreases run
  {
    var call, rest := run[0], run[1..];
    var b1 := Step(b, c, call);
    assert call.at <= run[|run| - 1].at by { LastNotBefore(call.at, run); }
    OneCall(b, c, call, t, off);
    if rest == [] {
      RunShort(b, c, run);
      LastPotential(b1, c, call.at);
      if !call.op.WindowRemaining? { Combine(Taken(b, c, call), 0, b1.tokens, Potential(b1, c, call.at), c, 0, off); }
    } else {
      assert rest[|rest| - 1].at == run[|run| - 1].at;
      assert Deducted(b, c, run) == Taken(b, c, call) + Deducted(b1, c, rest);
      assert Run(b, c, run) == Run(b1, c, rest);
      if call.op.WindowRemaining? {
        WindowedBound(b1, c, rest, call.at, off);
        MulMono(Span(rest) + off, Span(run) + off, c);
      } else {
        RunPotential(b1, c, rest, call.at);
        Combine(Taken(b, c, call), Deducted(b1, c, rest), Run(b1, c, rest).tokens, Potential(b1, c, call.at), c, Span(run), off);
      }
    }
  }

  lemma {:induction false} LastNotBefore(t: nat, run: seq<Call>)
    requires Timed(t, run) && run != []
    ensures t <= run[0].at <= run[|run| - 1].at
    decreases run
  {
    if |run| > 1 {
      LastNotBefore(run[0].statAt, run[1..]);
      assert run[1..][|run[1..]| - 1] == run[|run| - 1];
    }
  }

  lemma {:induction false} RunSplit(b: Bucket, c: nat, run: seq<Call>, i: nat)
    requires i <= |run|
    ensures Run(b, c, run) == Run(Run(b, c, run[..i]), c, run[i..])
    ensures Deducted(b, c, run) == Deducted(b, c, run[..i]) + Deducted(Run(b, c, run[..i]), c, run[i..])
    decreases run
  {
    if i == 0 {
      assert run[..0] == [] && run[0..] == run;
    } else {
      RunSplit(Step(b, c, run[0]), c, run[1..], i - 1);
      assert run[1..][..i - 1] == run[..i][1..] && run[1..][i - 1..] == run[i..];
    }
  }

  lemma RunAppend(b: Bucket, c: nat, run: seq<Call>, more: seq<Call>)
    ensures Run(b, c, run + more) == Run(Run(b, c, run), c, more)
    ensures Deducted(b, c, run + more) == Deducted(b, c, run) + Deducted(Run(b, c, run), c, more)
  {
    RunSplit(b, c, run + more, |run|);
    assert (run + more)[..|run|] == run && (run + more)[|run|..] == more;
  }

  /** At most one call. */
  lemma RunShort(b: Bucket, c: nat, run: seq<Call>)
    requires |run| <= 1
    ensures Run(b, c, run) == if run == [] then b else Step(b, c, run[0])
    ensures Deducted(b, c, run) == if run == [] then 0 else Taken(b, c, run[0])
  {
    if run != [] { assert run[1..] == []; }
  }

  lemma {:induction false} TimedSplit(t0: nat, run: seq<Call>, i: nat)
    requires Timed(t0, run) && i <= |run|
    ensures Timed(t0, run[..i])
    ensures Timed(if i == 0 then t0 else run[i - 1].statAt, run[i..])
    decreases run
  {
    if i == 0 {
      assert run[0..] == run;
    } else {
      TimedSplit(run[0].statAt, run[1..], i - 1);
      assert run[1..][..i - 1] == run[..i][1..] && run[1..][i - 1..] == run[i..];
    }
  }

  lemma EndsWith(b: Bucket, c: nat, run: seq<Call>, j: nat)
    requires j < |run|
    ensures Run(b, c, run[..j + 1]) == Step(Run(b, c, run[..j]), c, run[j])
  {
    RunSplit(b, c, run[..j + 1], j);
    assert run[..j + 1][..j] == run[..j] && run[..j + 1][j..] == [run[j]];
    assert [run[j]][1..] == [];
  }

  /** Call j of a run from a full bucket is an admission. */
  ghost predicate AdmittedAt(c: nat, t0: nat, run: seq<Call>, j: nat)
    requires j < |run|
  {
    run[j].op.CheckN? && Admits(Run(Fresh(c, t0), c, run[..j]), c, run[j].op.n, run[j].at)
  }

  /** The calls i to j stay below the rate. */
  ghost predicate UnderRate(c: nat, t0: nat, run: seq<Call>, i: nat, j: nat, off: nat)
    requires i <= j < |run|
  {
    BelowRate(Run(Fresh(c, t0), c, run[..i]), c, run[i..j + 1], off)
  }

  /** MAIN RESULT: whatever is deducted between any call i and a later admission j, the
      admission included, stays under one bucket plus the linear refill of the interval.
      An overdraft is therefore repaid before anything is admitted.  If neither the clock
      readings are whole milliseconds nor the capacity divides 60000, the truncation adds
      up to one millisecond to the interval; SlackFreeExactly shows when it must. */
  lemma SustainedRate(c: nat, t0: nat, run: seq<Call>, i: nat, j: nat, off: nat)
    requires c >= 1 && Timed(t0, run) && i <= j < |run|
    requires Precise(c, t0, off) && RunPrecise(c, run, off)
    requires AdmittedAt(c, t0, run, j)
    ensures UnderRate(c, t0, run, i, j, off)
  {
    var b0 := Fresh(c, t0);
    var mid := run[i..j + 1];
    Between(b0, c, t0, run, i, j, off);
    AdmittedLeaves(Run(b0, c, run[..j]), c, run[j]);
    WindowedBound(Run(b0, c, run[..i]), c, mid, if i == 0 then t0 else run[i - 1].statAt, off);
  }

  lemma AdmittedLeaves(b: Bucket, c: nat, call: Call)
    requires call.op.CheckN? && Admits(b, c, call.op.n, call.at)
    ensures Step(b, c, call).tokens >= 0
  {}

  lemma Between(b: Bucket, c: nat, t0: nat, run: seq<Call>, i: nat, j: nat, off: nat)
    requires Sane(b, c, t0) && Timed(t0, run) && i <= j < |run|
    requires Precise(c, b.lastUpdate, off) && RunPrecise(c, run, off)
    ensures var m, t := Run(b, c, run[..i]), if i == 0 then t0 else run[i - 1].statAt;
      && Sane(m, c, t) && Timed(t, run[i..j + 1])
      && Precise(c, m.lastUpdate, off) && RunPrecise(c, run[i..j + 1], off)
      && Run(m, c, run[i..j + 1]) == Step(Run(b, c, run[..j]), c, run[j])
  {
    TimedSplit(t0, run, j + 1);
    TimedSplit(t0, run[..j + 1], i);
    assert run[..j + 1][..i] == run[..i] && run[..j + 1][i..] == run[i..j + 1];
    RunSane(b, c, run[..i], t0);
    RunStaysPrecise(b, c, run[..i], off);
    RunSplit(b, c, run[..j + 1], i);
    EndsWith(b, c, run, j);
  }

  /** The rate holds without the extra millisecond, whatever the clock readings. */
  ghost predicate SlackFree(c: nat) {
    forall t0: nat, run: seq<Call>, i: nat, j: nat ::
      Timed(t0, run) && i <= j < |run| && AdmittedAt(c, t0, run, j) ==> UnderRate(c, t0, run, i, j, 0)
  }

  /** MAIN RESULT (exact condition): the extra millisecond can be dropped if and only if the
      capacity divides 60000.  For every other capacity a full bucket can be emptied just
      before the first whole token is due and again a minute after it was full. */
  lemma SlackFreeExactly(c: nat)
    requires c >= 1
    ensures SlackFree(c) <==> MS_PER_MINUTE % c == 0
  {
    if MS_PER_MINUTE % c == 0 {
      forall t0: nat, run: seq<Call>, i: nat, j: nat
        | Timed(t0, run) && i <= j < |run| && AdmittedAt(c, t0, run, j)
        ensures UnderRate(c, t0, run, i, j, 0)
      {
        SustainedRate(c, t0, run, i, j, 0);
      }
    } else {
      var t1 := (MS_PER_MINUTE / c + 1) * NS_PER_MS - 1;
      JustBeforeToken(c, t1);
      OverRate(c, t1);
    }
  }

  lemma OverRate(c: nat, t1: nat)
    requires c >= 1 && t1 <= MINUTE && t1 * c > MINUTE && Earned(c, t1) == 0 && Earned(c, MINUTE) == c
    ensures !SlackFree(c)
  {
    var first, second := Call(CheckN(c), t1, t1), Call(CheckN(c), MINUTE, MINUTE);
    var run := [first, second];
    EmptiedTwice(Fresh(c, 0), c, first, second);
    assert run[..0] == [] && run[0..1 + 1] == run;
    assert Timed(0, run) by { assert run[1..] == [second] && [second][1..] == []; }
    assert !UnderRate(c, 0, run, 0, 1, 0) by {
      assert Span(run) == MINUTE - t1;
      Distribute(MINUTE - t1, t1, c);
    }
  }

  /** The last nanosecond at which a bucket of a capacity that does not divide 60000 has
      earned nothing is late: at the linear rate it would have earned a whole token. */
  lemma JustBeforeToken(c: nat, t1: nat)
    requires c >= 1 && MS_PER_MINUTE % c != 0 && t1 == (MS_PER_MINUTE / c + 1) * NS_PER_MS - 1
    ensures Earned(c, t1) == 0 && Earned(c, MINUTE) == c && t1 <= MINUTE
    ensures t1 * c > MINUTE
  {
    var q := MS_PER_MINUTE / c;
    assert t1 / NS_PER_MS == q;
    assert c * q < MS_PER_MINUTE;
    assert q * c == c * q;
    assert MINUTE / NS_PER_MS * c == MS_PER_MINUTE * c;
    assert (q + 1) * c >= MS_PER_MINUTE + 1;
    assert (q + 1) * NS_PER_MS * c == NS_PER_MS * ((q + 1) * c);
    Successor(t1, c);
    if c > MS_PER_MINUTE {
      assert q == 0;
    } else {
      QuotientSmall(c, q);
    }
  }

  lemma QuotientSmall(c: nat, q: nat)
    requires 1 < c && c * q < MS_PER_MINUTE
    ensures q + 1 <= MS_PER_MINUTE
  {
    if q + 1 > MS_PER_MINUTE { MulMono(2, c, q); }
  }

  lemma EmptiedTwice(b: Bucket, c: nat, first: Call, second: Call)
    requires b == Fresh(c, 0) && c >= 1
    requires first.op == second.op == CheckN(c) && first.at == first.statAt && second.at == second.statAt == MINUTE
    requires Earned(c, first.at) == 0 && Earned(c, MINUTE) == c
    ensures AdmittedAt(c, 0, [first, second], 1)
    ensures Deducted(b, c, [first, second]) == c + c
  {
    var m := Step(b, c, first);
    assert m.tokens == 0 && m.lastUpdate == 0;
    assert [first, second][..1] == [first] && [first, second][1..] == [second];
    assert Run(b, c, [first]) == m by { assert [first][1..] == []; }
    assert Deducted(m, c, [second]) == c by { assert [second][1..] == []; }
  }
}
