/** The TPM ledger of the whole router: concurrent requests through proxy_handler
    (src/proxy/handler.rs), the calls they make on the store of limiters
    (src/ratelimit/limiter.rs), and the bucket each of those calls reaches. */
module RouterLedger {
  import opened Basics
  import opened BucketRuns
  import opened RateLimiterStore
  import opened RetryLoop
  import opened RequestCharges
  import TokenBucket
  import Protocol = BucketLedger

  // ---- concurrent requests ----

  /** A request, `rounds` rounds into its retry loop (or past its end). */
  datatype Job = Job(setup: Setup, world: World, initial: nat, rounds: nat, caller: Caller)

  predicate IsJob(job: Job) {
    job.initial < |job.setup.endpoints|
  }

  function PhaseOf(job: Job): Phase
    requires IsJob(job)
  {
    Rounds(job.setup, job.world, job.initial, job.rounds)
  }

  /** The takes of a request, in its own order. */
  function Plan(job: Job): seq<Take>
    requires IsJob(job)
  {
    if Admitted(job.caller) then RequestTakes(job.setup, job.caller, PhaseOf(job)) else AdmissionTakes(job.caller)
  }

  /** The usage its response reported, if it was answered. */
  function UsageOf(job: Job): nat
    requires IsJob(job)
  {
    var p := PhaseOf(job);
    if p.Ended? && p.exit.Answered? then p.exit.usage else 0
  }

  /** What a request that made the takes `own` so far owes the budget b: max(1, usage) if it
      settled there, and one token for every other admission it made there. */
  function DueOf(job: Job, own: seq<Take>, b: Budget): nat
    requires IsJob(job)
  {
    var admissions, settlements := Tally(own, Admissions(b)), Tally(own, Settlements(b));
    (if settlements > 0 then AtLeastOne(UsageOf(job)) else 0)
    + (if admissions >= settlements then admissions - settlements else 0)
  }

  /** Where a response settles, the request was admitted before. */
  lemma SettlesWhereAdmitted(job: Job, b: Budget)
    requires IsJob(job) && Admitted(job.caller) && PhaseOf(job).Ended?
    requires SettlesAt(job.setup, job.caller, PhaseOf(job).exit, b)
    ensures Tally(AdmissionTakes(job.caller) + LoopTakes(job.setup, PhaseOf(job).loop.log), Admissions(b)) >= 1
  {
    var log := PhaseOf(job).loop.log;
    TallyAppend(AdmissionTakes(job.caller), LoopTakes(job.setup, log), Admissions(b));
    AdmissionTally(job.caller, Admissions(b));
    LoopTally(job.setup, log, Admissions(b));
    AnsweredWasReserved(job.setup, job.world, job.initial, job.rounds);
  }

  lemma ReservesOnly(own: seq<Take>, takes: seq<Take>, job: Job, b: Budget)
    requires IsJob(job) && own <= takes && forall k :: 0 <= k < |takes| ==> takes[k].Reserve?
    ensures Tally(own, Settlements(b)) == 0 && Charged(own, b) == DueOf(job, own, b)
  {
    OnlyReserves(own, |own|, b);
  }

  lemma AdmissionReserves(c: Caller)
    ensures forall k :: 0 <= k < |AdmissionTakes(c)| ==> AdmissionTakes(c)[k].Reserve?
  {}

  /** The takes of a request up to any point of its life charge every budget what is due. */
  lemma PrefixLedger(job: Job, own: seq<Take>, b: Budget)
    requires IsJob(job) && own <= Plan(job)
    ensures Charged(own, b) == DueOf(job, own, b)
    ensures Tally(own, Settlements(b)) <= 1 && Tally(own, Settlements(b)) <= Tally(own, Admissions(b))
  {
    AdmissionReserves(job.caller);
    if Admitted(job.caller) {
      var p := PhaseOf(job);
      var before := AdmissionTakes(job.caller) + LoopTakes(job.setup, p.loop.log);
      LoopReserves(job.setup, p.loop.log);
      if |own| <= |before| {
        assert own == before[..|own|];
        ReservesOnly(own, before, job, b);
      } else {
        var n := |own| - |before|;
        assert own == before + SettlementTakes(job.setup, job.caller, p.exit)[..n];
        SettledLedger(job, before, n, b);
      }
    } else {
      ReservesOnly(own, AdmissionTakes(job.caller), job, b);
    }
  }

  /** The first n of its settlements are made. */
  lemma SettledLedger(job: Job, before: seq<Take>, n: nat, b: Budget)
    requires IsJob(job) && Admitted(job.caller) && PhaseOf(job).Ended?
    requires before == AdmissionTakes(job.caller) + LoopTakes(job.setup, PhaseOf(job).loop.log)
    requires forall k :: 0 <= k < |before| ==> before[k].Reserve?
    requires 0 < n <= |SettlementTakes(job.setup, job.caller, PhaseOf(job).exit)|
    ensures var own := before + SettlementTakes(job.setup, job.caller, PhaseOf(job).exit)[..n];
      && Charged(own, b) == DueOf(job, own, b)
      && Tally(own, Settlements(b)) <= 1 && Tally(own, Settlements(b)) <= Tally(own, Admissions(b))
  {
    var exit := PhaseOf(job).exit;
    var takes := SettlementTakes(job.setup, job.caller, exit);
    SettlementShape(job.setup, job.caller, exit);
    forall k | 0 <= k < n ensures takes[..n][k] == takes[k] {}
    AdmittedIfSettled(job, before, takes[..n], b);
    ReservedThenSettled(job, before, takes[..n], exit.usage, b);
  }

  lemma AdmittedIfSettled(job: Job, before: seq<Take>, made: seq<Take>, b: Budget)
    requires IsJob(job) && Admitted(job.caller) && PhaseOf(job).Ended?
    requires before == AdmissionTakes(job.caller) + LoopTakes(job.setup, PhaseOf(job).loop.log)
    requires forall k :: 0 <= k < |made| ==> SettlesAt(job.setup, job.caller, PhaseOf(job).exit, made[k].budget)
    ensures (exists k :: 0 <= k < |made| && made[k].budget == b) ==> Tally(before, Admissions(b)) >= 1
  {
    if k :| 0 <= k < |made| && made[k].budget == b { SettlesWhereAdmitted(job, b); }
  }

  lemma ReservedThenSettled(job: Job, before: seq<Take>, made: seq<Take>, usage: nat, b: Budget)
    requires IsJob(job) && UsageOf(job) == usage > 1
    requires forall k :: 0 <= k < |before| ==> before[k].Reserve?
    requires forall k :: 0 <= k < |made| ==> made[k].Settle? && made[k].usage == usage
    requires forall j, k :: 0 <= j < k < |made| ==> made[j].budget != made[k].budget
    requires (exists k :: 0 <= k < |made| && made[k].budget == b) ==> Tally(before, Admissions(b)) >= 1
    ensures Charged(before + made, b) == DueOf(job, before + made, b)
    ensures Tally(before + made, Settlements(b)) <= 1
    ensures Tally(before + made, Settlements(b)) <= Tally(before + made, Admissions(b))
  {
    OnlySettles(made, |made|, usage, b);
    OnlyReserves(before, |before|, b);
    TallyAppend(before, made, Tokens(b));
    TallyAppend(before, made, Admissions(b));
    TallyAppend(before, made, Settlements(b));
  }

  // ---- their interleaving ----

  datatype Tagged = Tagged(request: nat, take: Take)

  /** What one request took, and what all took, in the order of the history. */
  function TakesOf(history: seq<Tagged>, request: nat): seq<Take> {
    if history == [] then [] else
      TakesOf(history[..|history| - 1], request)
      + (if history[|history| - 1].request == request then [history[|history| - 1].take] else [])
  }

  function AllTakes(history: seq<Tagged>): seq<Take> {
    if history == [] then [] else AllTakes(history[..|history| - 1]) + [history[|history| - 1].take]
  }

  /** In this history of the router every request has made some first part of its takes. */
  ghost predicate Follows(jobs: seq<Job>, history: seq<Tagged>) {
    && (forall k :: 0 <= k < |history| ==> history[k].request < |jobs|)
    && (forall r :: 0 <= r < |jobs| ==> IsJob(jobs[r]) && TakesOf(history, r) <= Plan(jobs[r]))
  }

  function SumTally(history: seq<Tagged>, n: nat, m: Measure): nat {
    if n == 0 then 0 else SumTally(history, n - 1, m) + Tally(TakesOf(history, n - 1), m)
  }

  lemma {:induction false} InterleavedTally(history: seq<Tagged>, n: nat, m: Measure)
    requires forall k :: 0 <= k < |history| ==> history[k].request < n
    ensures Tally(AllTakes(history), m) == SumTally(history, n, m)
  {
    if history == [] {
      NothingTaken(n, m);
    } else {
      var before, last := history[..|history| - 1], history[|history| - 1];
      InterleavedTally(before, n, m);
      TallyAppend(AllTakes(before), [last.take], m);
      TallyOne(last.take, m);
      OneMoreTake(history, n, m);
    }
  }

  lemma {:induction false} NothingTaken(n: nat, m: Measure)
    ensures SumTally([], n, m) == 0
  {
    if n > 0 { NothingTaken(n - 1, m); }
  }

  lemma {:induction false} OneMoreTake(history: seq<Tagged>, n: nat, m: Measure)
    requires history != []
    ensures var last := history[|history| - 1];
      SumTally(history, n, m) ==
        SumTally(history[..|history| - 1], n, m) + (if last.request < n then Weigh(m, last.take) else 0)
  {
    if n > 0 {
      var before, last := history[..|history| - 1], history[|history| - 1];
      OneMoreTake(history, n - 1, m);
      if last.request == n - 1 {
        TallyAppend(TakesOf(before, n - 1), [last.take], m);
        TallyOne(last.take, m);
      } else {
        assert TakesOf(before, n - 1) + [] == TakesOf(before, n - 1);
      }
    }
  }

  /** What the first n requests owe the budget b. */
  ghost function TotalDue(jobs: seq<Job>, history: seq<Tagged>, n: nat, b: Budget): nat
    requires n <= |jobs| && forall r :: 0 <= r < n ==> IsJob(jobs[r])
  {
    if n == 0 then 0 else TotalDue(jobs, history, n - 1, b) + DueOf(jobs[n - 1], TakesOf(history, n - 1), b)
  }

  ghost predicate Balanced(job: Job, own: seq<Take>, b: Budget)
    requires IsJob(job)
  {
    Charged(own, b) == DueOf(job, own, b) && Tally(own, Settlements(b)) <= Tally(own, Admissions(b))
  }

  lemma {:induction false} SumIsDue(jobs: seq<Job>, history: seq<Tagged>, n: nat, b: Budget)
    requires n <= |jobs| && forall r :: 0 <= r < n ==> IsJob(jobs[r]) && Balanced(jobs[r], TakesOf(history, r), b)
    ensures SumTally(history, n, Tokens(b)) == TotalDue(jobs, history, n, b)
    ensures SumTally(history, n, Settlements(b)) <= SumTally(history, n, Admissions(b))
  {
    if n > 0 {
      SumIsDue(jobs, history, n - 1, b);
      assert Balanced(jobs[n - 1], TakesOf(history, n - 1), b);
    }
  }

  /** MAIN RESULT (ledger of the router): however concurrent requests interleave, and
      wherever each of them stands, the tokens charged to a budget are max(1, usage) for
      every settled admission and one for every other one. */
  lemma InterleavedLedger(jobs: seq<Job>, history: seq<Tagged>, b: Budget)
    requires Follows(jobs, history)
    ensures Charged(AllTakes(history), b) == TotalDue(jobs, history, |jobs|, b)
    ensures Tally(AllTakes(history), Settlements(b)) <= Tally(AllTakes(history), Admissions(b))
  {
    InterleavedTally(history, |jobs|, Tokens(b));
    InterleavedTally(history, |jobs|, Settlements(b));
    InterleavedTally(history, |jobs|, Admissions(b));
    forall r | 0 <= r < |jobs| ensures Balanced(jobs[r], TakesOf(history, r), b) {
      PrefixLedger(jobs[r], TakesOf(history, r), b);
    }
    SumIsDue(jobs, history, |jobs|, b);
  }

  // ---- the calls on the store ----

  /** Tokens that a store call deducted from the bucket of a key, on admission or as a
      settlement. */
  datatype Payment = Payment(key: string, amount: nat, settles: bool)

  function PaymentBy(view: View, call: StoreCall): seq<Payment> {
    match call
    case CheckCall(key, rpm, tpm, estimated, verdict, at, _) =>
      var e := Touched(view, key, tpm, at);
      if !RefusedByRpm(rpm, verdict) && ChecksTpm(tpm, estimated) && TokenBucket.Admits(e.bucket, e.capacity, estimated, at)
      then [Payment(key, estimated, false)] else []
    case ConsumeCall(key, tpm, amount, _, _) =>
      if tpm > 0 && amount > 0 then [Payment(key, amount, true)] else []
    case StateCall(_, _, _) => []
  }

  function Payments(calls: seq<StoreCall>): seq<Payment> {
    if calls == [] then [] else
      Payments(calls[..|calls| - 1]) + PaymentBy(ViewAfter(calls[..|calls| - 1]), calls[|calls| - 1])
  }

  function Paid(ps: seq<Payment>, key: string): nat {
    if ps == [] then 0 else
      Paid(ps[..|ps| - 1], key) + (if ps[|ps| - 1].key == key then ps[|ps| - 1].amount else 0)
  }

  lemma PaidNext(ps: seq<Payment>, more: seq<Payment>, key: string)
    requires |more| <= 1
    ensures Paid(ps + more, key) == Paid(ps, key) + if more != [] && more[0].key == key then more[0].amount else 0
  {
    if more == [] { assert ps + more == ps; } else { assert (ps + more)[..|ps|] == ps; }
  }

  lemma OnePayment(view: View, key: string, call: StoreCall, limit: nat, m: TokenBucket.Bucket)
    requires call.key == key ==> call.tpm == limit
    requires key in view ==> view[key].capacity == limit
    requires m == if key in view then view[key].bucket else TokenBucket.Fresh(limit, call.at)
    ensures var made := PaymentBy(view, call);
      Deducted(m, limit, CallOn(key, call)) == if made != [] && made[0].key == key then made[0].amount else 0
  {
    RunShort(m, limit, CallOn(key, call));
  }

  lemma DeductsNext(b0: TokenBucket.Bucket, run: seq<Call>, paid: seq<Payment>, view: View, key: string, call: StoreCall, limit: nat)
    requires call.key == key ==> call.tpm == limit
    requires key in view ==> view[key].capacity == limit
    requires Run(b0, limit, run) == if key in view then view[key].bucket else TokenBucket.Fresh(limit, call.at)
    requires Deducted(b0, limit, run) == Paid(paid, key)
    ensures Deducted(b0, limit, run + CallOn(key, call)) == Paid(paid + PaymentBy(view, call), key)
  {
    RunAppend(b0, limit, run, CallOn(key, call));
    PaidNext(paid, PaymentBy(view, call), key);
    OnePayment(view, key, call, limit, Run(b0, limit, run));
  }

  /** The bucket of a key before the last call, counted from the creation it has after it. */
  lemma RunBefore(calls: seq<StoreCall>, key: string, limit: nat)
    requires calls != [] && forall k :: 0 <= k < |calls| && calls[k].key == key ==> calls[k].tpm == limit
    ensures var before := calls[..|calls| - 1];
      var view := ViewAfter(before);
      && (key in view ==> view[key].capacity == limit && Born(key, before) == Born(key, calls))
      && (key !in view ==> CallsOn(key, before) == [])
      && Run(TokenBucket.Fresh(limit, Born(key, calls)), limit, CallsOn(key, before)) ==
           if key in view then view[key].bucket else TokenBucket.Fresh(limit, calls[|calls| - 1].at)
  {
    KeyRunsAlone(calls[..|calls| - 1], key, limit);
  }

  /** The run of a key's own calls deducts what the store's calls paid to it. */
  lemma {:induction false} KeyDeducts(calls: seq<StoreCall>, key: string, limit: nat)
    requires forall k :: 0 <= k < |calls| && calls[k].key == key ==> calls[k].tpm == limit
    ensures Deducted(TokenBucket.Fresh(limit, Born(key, calls)), limit, CallsOn(key, calls)) == Paid(Payments(calls), key)
  {
    if calls != [] {
      var before, call := calls[..|calls| - 1], calls[|calls| - 1];
      KeyDeducts(before, key, limit);
      RunBefore(calls, key, limit);
      DeductsNext(TokenBucket.Fresh(limit, Born(key, calls)), CallsOn(key, before), Payments(before), ViewAfter(before),
                  key, call, limit);
    }
  }

  // ---- requests and their calls ----

  /** The store's key of a budget. */
  function KeyOf(b: Budget): string {
    match b
    case TeamBudget(team) => "team:" + team
    case TokenBudget(token) => token
    case EndpointBudget(name) => "ep:" + name
  }

  /** Two budgets share a key only if one is a token whose key spells the other's prefix. */
  lemma SharedKeyExactly(a: Budget, b: Budget)
    ensures KeyOf(a) == KeyOf(b) <==>
      || a == b
      || (a.TokenBudget? && b.TeamBudget? && a.token == "team:" + b.team)
      || (a.TokenBudget? && b.EndpointBudget? && a.token == "ep:" + b.name)
      || (b.TokenBudget? && a.TeamBudget? && b.token == "team:" + a.team)
      || (b.TokenBudget? && a.EndpointBudget? && b.token == "ep:" + a.name)
  {
    if a.TeamBudget? { assert KeyOf(a)[0] == 't' && KeyOf(a)[5..] == a.team; }
    if b.TeamBudget? { assert KeyOf(b)[0] == 't' && KeyOf(b)[5..] == b.team; }
    if a.EndpointBudget? { assert KeyOf(a)[0] == 'e' && KeyOf(a)[3..] == a.name; }
    if b.EndpointBudget? { assert KeyOf(b)[0] == 'e' && KeyOf(b)[3..] == b.name; }
  }

  function PaymentOf(t: Take): Payment {
    Payment(KeyOf(t.budget), Amount(t), t.Settle?)
  }

  /** The payments that the takes of a history amount to, in order. */
  function PaymentsFor(history: seq<Tagged>): seq<Payment> {
    if history == [] then [] else PaymentsFor(history[..|history| - 1]) + [PaymentOf(history[|history| - 1].take)]
  }

  /** No take is on another budget that has the same key as b. */
  ghost predicate Unshared(history: seq<Tagged>, b: Budget) {
    forall k :: 0 <= k < |history| && KeyOf(history[k].take.budget) == KeyOf(b) ==> history[k].take.budget == b
  }

  lemma {:induction false} PaidIsCharged(history: seq<Tagged>, b: Budget)
    requires Unshared(history, b)
    ensures Paid(PaymentsFor(history), KeyOf(b)) == Charged(AllTakes(history), b)
  {
    if history != [] {
      var before, last := history[..|history| - 1], history[|history| - 1];
      PaidIsCharged(before, b);
      PaidNext(PaymentsFor(before), [PaymentOf(last.take)], KeyOf(b));
      TallyAppend(AllTakes(before), [last.take], Tokens(b));
      TallyOne(last.take, Tokens(b));
    }
  }

  /** MAIN RESULT (ledger of a bucket): if the calls on the store make the takes of the
      requests, then the lifetime deductions of the bucket of b are max(1, usage) for every
      settled admission and one for every other one. */
  lemma BucketOfRouter(jobs: seq<Job>, history: seq<Tagged>, calls: seq<StoreCall>, b: Budget, limit: nat)
    requires Follows(jobs, history) && Unshared(history, b)
    requires Payments(calls) == PaymentsFor(history)
    requires forall k :: 0 <= k < |calls| && calls[k].key == KeyOf(b) ==> calls[k].tpm == limit
    ensures Deducted(TokenBucket.Fresh(limit, Born(KeyOf(b), calls)), limit, CallsOn(KeyOf(b), calls))
         == TotalDue(jobs, history, |jobs|, b)
  {
    KeyDeducts(calls, KeyOf(b), limit);
    PaidIsCharged(history, b);
    InterleavedLedger(jobs, history, b);
  }

  // ---- how far requests can overdraw a bucket ----

  /** What a store call does to the bucket of `key`, as an act of the two-phase protocol. */
  function ActOf(key: string, call: StoreCall): (acts: seq<Protocol.Act>)
    ensures |acts| <= 1
  {
    if call.key != key then [] else
      match call
      case CheckCall(_, rpm, tpm, estimated, verdict, at, statAt) =>
        if !RefusedByRpm(rpm, verdict) && ChecksTpm(tpm, estimated) then [Protocol.Reserve(at, statAt)] else []
      case ConsumeCall(_, tpm, amount, at, statAt) =>
        if tpm > 0 && amount > 0 then [Protocol.Settle(amount + 1, at, statAt)] else []
      case StateCall(_, tpm, at) => if tpm > 0 then [Protocol.Report(at)] else []
  }

  function ActsOn(key: string, calls: seq<StoreCall>): seq<Protocol.Act> {
    if calls == [] then [] else ActsOn(key, calls[..|calls| - 1]) + ActOf(key, calls[|calls| - 1])
  }

  /** All calls on a key use its limit, and its checks ask for one token. */
  predicate Uniform(calls: seq<StoreCall>, key: string, limit: nat) {
    forall k :: 0 <= k < |calls| && calls[k].key == key ==>
      calls[k].tpm == limit && (calls[k].CheckCall? ==> calls[k].estimated == 1)
  }

  lemma CallsOfNext(acts: seq<Protocol.Act>, more: seq<Protocol.Act>)
    requires |more| <= 1
    ensures Protocol.CallsOf(acts + more) ==
      Protocol.CallsOf(acts) + if more == [] then [] else Protocol.CallsIn(more[0])
  {
    if more == [] {
      assert acts + more == acts && Protocol.CallsOf(acts) + [] == Protocol.CallsOf(acts);
    } else {
      assert (acts + more)[..|acts|] == acts;
    }
  }

  lemma UniformBefore(calls: seq<StoreCall>, key: string, limit: nat)
    requires Uniform(calls, key, limit) && calls != []
    ensures Uniform(calls[..|calls| - 1], key, limit)
    ensures var last := calls[|calls| - 1];
      last.key == key ==> last.tpm == limit && (last.CheckCall? ==> last.estimated == 1)
  {}

  lemma ActIsOwnCall(call: StoreCall, key: string)
    requires call.key == key && call.CheckCall? ==> call.estimated == 1
    ensures CallOn(key, call) == if ActOf(key, call) == [] then [] else Protocol.CallsIn(ActOf(key, call)[0])
  {}

  lemma {:induction false} ActsAreOwnCalls(calls: seq<StoreCall>, key: string, limit: nat)
    requires Uniform(calls, key, limit)
    ensures Protocol.CallsOf(ActsOn(key, calls)) == CallsOn(key, calls)
  {
    if calls != [] {
      var before, call := calls[..|calls| - 1], calls[|calls| - 1];
      UniformBefore(calls, key, limit);
      ActsAreOwnCalls(before, key, limit);
      ActIsOwnCall(call, key);
      CallsOfNext(ActsOn(key, before), ActOf(key, call));
    }
  }

  /** The bucket a key has or would get, and the protocol's bucket, are one. */
  lemma ProtocolBucket(calls: seq<StoreCall>, key: string, limit: nat, t0: nat)
    requires Uniform(calls, key, limit)
    requires key in ViewAfter(calls) ==> t0 == Born(key, calls)
    ensures Protocol.After(limit, t0, ActsOn(key, calls)).bucket ==
      if key in ViewAfter(calls) then ViewAfter(calls)[key].bucket else TokenBucket.Fresh(limit, t0)
    ensures key in ViewAfter(calls) ==> ViewAfter(calls)[key].capacity == limit
  {
    ActsAreOwnCalls(calls, key, limit);
    assert forall k :: 0 <= k < |calls| && calls[k].key == key ==> calls[k].tpm == limit;
    Protocol.ActsAreCalls(limit, t0, ActsOn(key, calls));
    KeyRunsAlone(calls, key, limit);
  }

  /** Admissions to b that are not settled yet. */
  function Open(history: seq<Tagged>, b: Budget): int {
    Tally(AllTakes(history), Admissions(b)) - Tally(AllTakes(history), Settlements(b))
  }

  lemma OpenNext(history: seq<Tagged>, b: Budget)
    requires history != []
    ensures var t := history[|history| - 1].take;
      Open(history, b) == Open(history[..|history| - 1], b)
        + (if t.budget != b then 0 else if t.Reserve? then 1 else -1)
  {
    var before, t := history[..|history| - 1], history[|history| - 1].take;
    TallyAppend(AllTakes(before), [t], Admissions(b));
    TallyAppend(AllTakes(before), [t], Settlements(b));
    TallyOne(t, Admissions(b));
    TallyOne(t, Settlements(b));
  }

  /** At most K admissions to b are open at any time, and no settlement of b is of more than
      M tokens. */
  ghost predicate Bounded(history: seq<Tagged>, b: Budget, K: nat, M: nat) {
    && (forall n :: 0 <= n <= |history| ==> 0 <= Open(history[..n], b) <= K)
    && (forall k :: 0 <= k < |history| && history[k].take.Settle? && history[k].take.budget == b ==>
          history[k].take.usage <= M)
  }

  lemma BoundedBefore(history: seq<Tagged>, b: Budget, K: nat, M: nat)
    requires Bounded(history, b, K, M) && history != []
    ensures Bounded(history[..|history| - 1], b, K, M)
    ensures 0 <= Open(history, b) <= K
  {
    var before := history[..|history| - 1];
    forall n | 0 <= n <= |before| ensures 0 <= Open(before[..n], b) <= K {
      assert before[..n] == history[..n];
    }
    assert history[..|history|] == history;
  }

  /** One more act of the protocol, by the take that the call makes, if it makes one. */
  lemma OneActLegal(view: View, call: StoreCall, b: Budget, limit: nat, t: seq<Take>, p: Protocol.Shared, K: nat, M: nat)
    requires call.key == KeyOf(b) && call.tpm == limit && (call.CheckCall? ==> call.estimated == 1)
    requires call.key in view ==> view[call.key].capacity == limit
    requires ActOf(call.key, call) != [] ==>
      p.bucket == if call.key in view then view[call.key].bucket else TokenBucket.Fresh(limit, call.at)
    requires |t| <= 1 && PaymentBy(view, call) == (if t == [] then [] else [PaymentOf(t[0])])
    requires t != [] ==> t[0].budget == b
    requires t != [] && t[0].Reserve? ==> p.inflight < K
    requires t != [] && t[0].Settle? ==> p.inflight > 0 && t[0].usage <= M
    ensures forall a :: a in ActOf(call.key, call) ==>
      && Protocol.Enabled(p, limit, K, M, a)
      && Protocol.Next(p, limit, a).inflight ==
           p.inflight + if t == [] then 0 else if t[0].Reserve? then 1 else -1
    ensures ActOf(call.key, call) == [] ==> t == []
  {}

  lemma ActsNext(limit: nat, t0: nat, K: nat, M: nat, acts: seq<Protocol.Act>, more: seq<Protocol.Act>)
    requires |more| <= 1 && Protocol.Legal(limit, t0, K, M, acts)
    requires more != [] ==> Protocol.Enabled(Protocol.After(limit, t0, acts), limit, K, M, more[0])
    ensures Protocol.Legal(limit, t0, K, M, acts + more)
    ensures Protocol.After(limit, t0, acts + more) ==
      if more == [] then Protocol.After(limit, t0, acts) else Protocol.Next(Protocol.After(limit, t0, acts), limit, more[0])
  {
    if more == [] { assert acts + more == acts; } else { assert (acts + more)[..|acts|] == acts; }
  }

  /** The takes of a history that the last call made: one or none. */
  lemma LastTake(history: seq<Tagged>, calls: seq<StoreCall>) returns (before: seq<Tagged>, t: seq<Take>)
    requires calls != [] && Payments(calls) == PaymentsFor(history)
    ensures |t| <= 1 && Payments(calls[..|calls| - 1]) == PaymentsFor(before)
    ensures PaymentBy(ViewAfter(calls[..|calls| - 1]), calls[|calls| - 1]) == if t == [] then [] else [PaymentOf(t[0])]
    ensures t == [] ==> before == history
    ensures t != [] ==> history != [] && before == history[..|history| - 1] && t[0] == history[|history| - 1].take
  {
    var made := PaymentBy(ViewAfter(calls[..|calls| - 1]), calls[|calls| - 1]);
    var paid := Payments(calls[..|calls| - 1]);
    assert Payments(calls) == paid + made;
    if made == [] {
      before, t := history, [];
    } else {
      before, t := history[..|history| - 1], [history[|history| - 1].take];
      assert (paid + made)[..|paid|] == paid && (paid + made)[|paid|] == made[0];
      assert PaymentsFor(history)[..|paid|] == PaymentsFor(before);
    }
  }

  /** The bucket before the last call, if that call acts on it. */
  lemma EarlierBucket(calls: seq<StoreCall>, key: string, limit: nat, t0: nat)
    requires calls != [] && Uniform(calls, key, limit)
    requires key in ViewAfter(calls) ==> t0 == Born(key, calls)
    ensures var view, call := ViewAfter(calls[..|calls| - 1]), calls[|calls| - 1];
      && (key in view ==> view[key].capacity == limit)
      && (ActOf(key, call) != [] ==>
          Protocol.After(limit, t0, ActsOn(key, calls[..|calls| - 1])).bucket ==
            if key in view then view[key].bucket else TokenBucket.Fresh(limit, call.at))
  {
    var earlier, call := calls[..|calls| - 1], calls[|calls| - 1];
    UniformBefore(calls, key, limit);
    BornBefore(calls, key, t0);
    ProtocolBucket(earlier, key, limit, t0);
    if ActOf(key, call) != [] { ActMakesEntry(ViewAfter(earlier), call); }
  }

  /** The protocol follows one more call. */
  lemma ActsLegalNext(view: View, call: StoreCall, acts: seq<Protocol.Act>, t: seq<Take>, b: Budget,
                      limit: nat, t0: nat, K: nat, M: nat)
    requires call.key == KeyOf(b) ==> call.tpm == limit && (call.CheckCall? ==> call.estimated == 1)
    requires KeyOf(b) in view ==> view[KeyOf(b)].capacity == limit
    requires ActOf(KeyOf(b), call) != [] ==>
      Protocol.After(limit, t0, acts).bucket ==
        if KeyOf(b) in view then view[KeyOf(b)].bucket else TokenBucket.Fresh(limit, call.at)
    requires |t| <= 1 && PaymentBy(view, call) == (if t == [] then [] else [PaymentOf(t[0])])
    requires t != [] && KeyOf(t[0].budget) == KeyOf(b) ==> t[0].budget == b
    requires Protocol.Legal(limit, t0, K, M, acts)
    requires var p := Protocol.After(limit, t0, acts);
      t != [] && t[0].budget == b ==> if t[0].Reserve? then p.inflight < K else p.inflight > 0 && t[0].usage <= M
    ensures Protocol.Legal(limit, t0, K, M, acts + ActOf(KeyOf(b), call))
    ensures Protocol.After(limit, t0, acts + ActOf(KeyOf(b), call)).inflight ==
      Protocol.After(limit, t0, acts).inflight
      + if t == [] || t[0].budget != b then 0 else if t[0].Reserve? then 1 else -1
  {
    var more := ActOf(KeyOf(b), call);
    if call.key == KeyOf(b) {
      OneActLegal(view, call, b, limit, t, Protocol.After(limit, t0, acts), K, M);
      assert more != [] ==> more[0] in more;
    }
    ActsNext(limit, t0, K, M, acts, more);
  }

  lemma ActMakesEntry(view: View, call: StoreCall)
    requires ActOf(call.key, call) != []
    ensures call.key in ViewStep(view, call)
  {}

  lemma BornBefore(calls: seq<StoreCall>, key: string, t0: nat)
    requires calls != [] && (key in ViewAfter(calls) ==> t0 == Born(key, calls))
    ensures var earlier, last := calls[..|calls| - 1], calls[|calls| - 1];
      && (key in ViewAfter(earlier) ==> t0 == Born(key, earlier))
      && (key !in ViewAfter(earlier) && key in ViewAfter(calls) ==> t0 == last.at)
  {}

  /** The calls that make the requests' takes are a legal history of the protocol. */
  lemma {:induction false} ActsLegal(history: seq<Tagged>, calls: seq<StoreCall>, b: Budget, limit: nat, t0: nat, K: nat, M: nat)
    requires Payments(calls) == PaymentsFor(history) && Unshared(history, b) && Bounded(history, b, K, M)
    requires Uniform(calls, KeyOf(b), limit)
    requires KeyOf(b) in ViewAfter(calls) ==> t0 == Born(KeyOf(b), calls)
    ensures Protocol.Legal(limit, t0, K, M, ActsOn(KeyOf(b), calls))
    ensures Protocol.After(limit, t0, ActsOn(KeyOf(b), calls)).inflight == Open(history, b)
    decreases |calls|
  {
    if calls == [] {
      assert history == [];
    } else {
      var before, t := LastTake(history, calls);
      var earlier, call := calls[..|calls| - 1], calls[|calls| - 1];
      UniformBefore(calls, KeyOf(b), limit);
      BornBefore(calls, KeyOf(b), t0);
      EarlierBucket(calls, KeyOf(b), limit, t0);
      if t != [] {
        BoundedBefore(history, b, K, M);
        OpenNext(history, b);
      }
      ActsLegal(before, earlier, b, limit, t0, K, M);
      ActsLegalNext(ViewAfter(earlier), call, ActsOn(KeyOf(b), earlier), t, b, limit, t0, K, M);
    }
  }

  lemma {:induction false} TakesOfPrefix(history: seq<Tagged>, n: nat, r: nat)
    requires n <= |history|
    ensures TakesOf(history[..n], r) <= TakesOf(history, r)
  {
    if n == |history| {
      assert history[..n] == history;
    } else {
      TakesOfPrefix(history[..|history| - 1], n, r);
      assert history[..|history| - 1][..n] == history[..n];
    }
  }

  lemma FollowsBefore(jobs: seq<Job>, history: seq<Tagged>, n: nat)
    requires Follows(jobs, history) && n <= |history|
    ensures Follows(jobs, history[..n])
  {
    forall r | 0 <= r < |jobs| ensures TakesOf(history[..n], r) <= Plan(jobs[r]) {
      TakesOfPrefix(history, n, r);
    }
  }

  /** MAIN RESULT (overdraft): if at most K admissions to a budget are unsettled at any time
      and no response uses more than M tokens, its bucket never falls below -K * (M - 1). */
  lemma OverdraftOfRouter(jobs: seq<Job>, history: seq<Tagged>, calls: seq<StoreCall>, b: Budget, limit: nat, K: nat, M: nat)
    requires Follows(jobs, history) && Unshared(history, b)
    requires Payments(calls) == PaymentsFor(history) && Uniform(calls, KeyOf(b), limit)
    requires limit >= 1 && M >= 1
    requires forall n :: 0 <= n <= |history| ==> Open(history[..n], b) <= K
    requires forall k :: 0 <= k < |history| && history[k].take.Settle? && history[k].take.budget == b ==>
      history[k].take.usage <= M
    ensures KeyOf(b) in ViewAfter(calls) ==> 0 - K * (M - 1) <= ViewAfter(calls)[KeyOf(b)].bucket.tokens <= limit
  {
    forall n | 0 <= n <= |history| ensures 0 <= Open(history[..n], b) {
      FollowsBefore(jobs, history, n);
      InterleavedLedger(jobs, history[..n], b);
    }
    var t0 := Born(KeyOf(b), calls);
    ActsLegal(history, calls, b, limit, t0, K, M);
    ProtocolBucket(calls, KeyOf(b), limit, t0);
    Protocol.OverdraftBound(limit, t0, K, M, ActsOn(KeyOf(b), calls));
  }
}
