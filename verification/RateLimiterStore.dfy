/** The keyed store of limiters (src/ratelimit/limiter.rs): creation on first use, the
    RPM-then-TPM check, post-fact consumption, and cleanup of idle entries.

    The RPM verdict of the governor library is an argument of `Check`.  The wall clock that
    stamps `lastUsed` and the monotonic clock of the buckets are one clock here. */
module RateLimiterStore {
  import opened TokenBucket
  import opened BucketRuns
  import opened BucketTiming

  datatype Entry = Entry(capacity: nat, bucket: Bucket, lastUsed: nat)
  type View = map<string, Entry>

  datatype RpmVerdict = RpmAdmitted | RpmRefused(waitSecs: real)
  datatype Result = Result(allowed: bool, limit: nat, resetAfterSecs: real)

  /** The entry a call on `key` works with, stamped as used now. */
  function Touched(view: View, key: string, tpm: nat, now: nat): Entry {
    if key in view then view[key].(lastUsed := now) else Entry(tpm, Fresh(tpm, now), now)
  }

  predicate RefusedByRpm(rpm: nat, verdict: RpmVerdict) {
    rpm > 0 && verdict.RpmRefused?
  }

  predicate ChecksTpm(tpm: nat, estimated: nat) {
    tpm > 0 && estimated > 0
  }

  function ViewAfterCheck(view: View, key: string, rpm: nat, tpm: nat, estimated: nat,
                          verdict: RpmVerdict, now: nat, statNow: nat): View {
    var e := Touched(view, key, tpm, now);
    if RefusedByRpm(rpm, verdict) then view[key := e]
    else if ChecksTpm(tpm, estimated) then
      view[key := e.(bucket := AfterCheck(e.bucket, e.capacity, estimated, now, statNow))]
    else if rpm > 0 then view[key := e]
    else view
  }

  function CheckResult(view: View, key: string, rpm: nat, tpm: nat, estimated: nat,
                       verdict: RpmVerdict, now: nat): Result {
    var e := Touched(view, key, tpm, now);
    if RefusedByRpm(rpm, verdict) then Result(false, rpm, verdict.waitSecs)
    else if ChecksTpm(tpm, estimated) && !Admits(e.bucket, e.capacity, estimated, now) then
      Result(false, tpm, WaitSecs(e.capacity, estimated - Refill(e.bucket, e.capacity, now).tokens))
    else Result(true, if rpm > 0 then rpm else tpm, 0.0)
  }

  function ViewAfterConsume(view: View, key: string, tpm: nat, amount: nat, now: nat, statNow: nat): View {
    if tpm == 0 || amount == 0 then view else
      var e := Touched(view, key, tpm, now);
      view[key := e.(bucket := AfterConsume(e.bucket, e.capacity, amount, now, statNow))]
  }

  function ViewAfterCleanup(view: View, now: nat): View {
    map k | k in view && !Idle(view[k].lastUsed, now) :: view[k]
  }

  class Store {
    var limiters: View

    constructor ()
      ensures limiters == map[]
    {
      limiters := map[];
    }

    /** get_or_create: the limiter of `key`, created full on first use. */
    method GetOrCreate(key: string, tpm: nat, now: nat) returns (pair: Entry)
      modifies this
      ensures pair == if key in old(limiters) then old(limiters)[key] else Entry(tpm, Fresh(tpm, now), now)
      ensures limiters == old(limiters)[key := pair]
    {
      if key !in limiters {
        limiters := limiters[key := Entry(tpm, Fresh(tpm, now), now)];
      }
      pair := limiters[key];
    }

    method Check(key: string, rpm: nat, tpm: nat, estimated: nat, verdict: RpmVerdict, now: nat, statNow: nat)
      returns (r: Result)
      modifies this
      ensures limiters == ViewAfterCheck(old(limiters), key, rpm, tpm, estimated, verdict, now, statNow)
      ensures r == CheckResult(old(limiters), key, rpm, tpm, estimated, verdict, now)
    {
      if rpm > 0 {
        var pair := GetOrCreate(key, tpm, now);
        limiters := limiters[key := pair.(lastUsed := now)];
        if verdict.RpmRefused? {
          return Result(false, rpm, verdict.waitSecs);
        }
      }
      if tpm > 0 && estimated > 0 {
        var pair := GetOrCreate(key, tpm, now);
        var bucket := AfterCheck(pair.bucket, pair.capacity, estimated, now, statNow);
        limiters := limiters[key := pair.(lastUsed := now, bucket := bucket)];
        if !Admits(pair.bucket, pair.capacity, estimated, now) {
          return Result(false, tpm, WaitSecs(pair.capacity, estimated - bucket.tokens));
        }
      }
      r := Result(true, if rpm > 0 then rpm else tpm, 0.0);
    }

    method ConsumeTpm(key: string, tpm: nat, amount: nat, now: nat, statNow: nat)
      modifies this
      ensures limiters == ViewAfterConsume(old(limiters), key, tpm, amount, now, statNow)
    {
      if tpm == 0 || amount == 0 {
        return;
      }
      var pair := GetOrCreate(key, tpm, now);
      var bucket := AfterConsume(pair.bucket, pair.capacity, amount, now, statNow);
      limiters := limiters[key := pair.(lastUsed := now, bucket := bucket)];
    }

    /** (limit, remaining) for the dashboard; reading does not count as use. */
    method GetTpmState(key: string, tpm: nat, now: nat) returns (limit: nat, remaining: int)
      modifies this
      ensures limit == tpm
      ensures tpm == 0 ==> remaining == 0 && limiters == old(limiters)
      ensures tpm > 0 ==>
        var e := if key in old(limiters) then old(limiters)[key] else Entry(tpm, Fresh(tpm, now), now);
        var read := AfterWindowRead(e.bucket, now);
        && remaining == e.capacity - read.windowConsumed
        && limiters == old(limiters)[key := e.(bucket := read)]
    {
      if tpm == 0 {
        return 0, 0;
      }
      var pair := GetOrCreate(key, tpm, now);
      var read := AfterWindowRead(pair.bucket, now);
      limiters := limiters[key := pair.(bucket := read)];
      return tpm, pair.capacity - read.windowConsumed;
    }

    /** One pass of the background task. */
    method Cleanup(now: nat)
      modifies this
      ensures limiters == ViewAfterCleanup(old(limiters), now)
    {
      limiters := map k | k in limiters && !Idle(limiters[k].lastUsed, now) :: limiters[k];
    }
  }

  /** Cleanup seen through the store: if the dropped entry owed at most eight capacities, the
      next check on its key answers the same.  If the check refills the bucket it leaves the
      same balance; if it is refused for its request rate, or counts no tokens, it recreates
      the limiter full, and CleanupInvisibleExactly says when that shows later. */
  lemma CleanupThenCheck(view: View, key: string, rpm: nat, estimated: nat, verdict: RpmVerdict,
                         cleanedAt: nat, now: nat, statNow: nat)
    requires key in view && view[key].capacity >= 1
    requires Sane(view[key].bucket, view[key].capacity, view[key].lastUsed)
    requires view[key].bucket.tokens >= -8 * view[key].capacity
    requires cleanedAt <= now
    ensures var c := view[key].capacity;
      var cleaned := ViewAfterCleanup(view, cleanedAt);
      var kept, later := ViewAfterCheck(view, key, rpm, c, estimated, verdict, now, statNow),
                         ViewAfterCheck(cleaned, key, rpm, c, estimated, verdict, now, statNow);
      && CheckResult(cleaned, key, rpm, c, estimated, verdict, now) == CheckResult(view, key, rpm, c, estimated, verdict, now)
      && (!RefusedByRpm(rpm, verdict) && estimated > 0 ==>
          key in later && SameBalance(later[key].bucket, kept[key].bucket))
      && (RefusedByRpm(rpm, verdict) || estimated == 0 ==>
          && kept[key].bucket == view[key].bucket
          && (key in later && key !in cleaned ==> later[key].bucket == Fresh(c, now)))
  {
    var e := view[key];
    if Idle(e.lastUsed, cleanedAt) {
      assert Idle(e.lastUsed, now) by { SecondsMono(cleanedAt, now); }
      IdleEarns(e.capacity, e.bucket.lastUpdate, e.lastUsed, now);
      CleanupExact(e.bucket, e.capacity, e.lastUsed, now);
    }
  }

  /** So does a read of the statistics: it recreates the limiter full. */
  lemma CleanupThenRead(view: View, key: string, cleanedAt: nat, now: nat)
    requires key in view && Idle(view[key].lastUsed, cleanedAt) && view[key].capacity >= 1
    ensures var c := view[key].capacity;
      && SameBalance(ViewStep(view, StateCall(key, c, now))[key].bucket, view[key].bucket)
      && ViewStep(ViewAfterCleanup(view, cleanedAt), StateCall(key, c, now))[key].bucket == Fresh(c, now)
  {}

  lemma SecondsMono(a: nat, b: nat)
    requires a <= b
    ensures a / NS_PER_SEC <= b / NS_PER_SEC
  {}

  // ---- every key sees a run of its own ----

  datatype StoreCall =
    | CheckCall(key: string, rpm: nat, tpm: nat, estimated: nat, verdict: RpmVerdict, at: nat, statAt: nat)
    | ConsumeCall(key: string, tpm: nat, amount: nat, at: nat, statAt: nat)
    | StateCall(key: string, tpm: nat, at: nat)

  function ViewStep(view: View, call: StoreCall): View {
    match call
    case CheckCall(key, rpm, tpm, estimated, verdict, at, statAt) =>
      ViewAfterCheck(view, key, rpm, tpm, estimated, verdict, at, statAt)
    case ConsumeCall(key, tpm, amount, at, statAt) => ViewAfterConsume(view, key, tpm, amount, at, statAt)
    case StateCall(key, tpm, at) =>
      if tpm == 0 then view else
        var e := if key in view then view[key] else Entry(tpm, Fresh(tpm, at), at);
        view[key := e.(bucket := AfterWindowRead(e.bucket, at))]
  }

  function ViewAfter(calls: seq<StoreCall>): View {
    if calls == [] then map[] else ViewStep(ViewAfter(calls[..|calls| - 1]), calls[|calls| - 1])
  }

  /** What one store call does to the bucket of `key`. */
  function CallOn(key: string, call: StoreCall): seq<Call> {
    if call.key != key then [] else
      match call
      case CheckCall(_, rpm, tpm, estimated, verdict, at, statAt) =>
        if !RefusedByRpm(rpm, verdict) && ChecksTpm(tpm, estimated) then [Call(CheckN(estimated), at, statAt)] else []
      case ConsumeCall(_, tpm, amount, at, statAt) =>
        if tpm == 0 || amount == 0 then [] else [Call(ConsumeN(amount), at, statAt)]
      case StateCall(_, tpm, at) => if tpm == 0 then [] else [Call(WindowRemaining, at, at)]
  }

  function CallsOn(key: string, calls: seq<StoreCall>): seq<Call> {
    if calls == [] then [] else CallsOn(key, calls[..|calls| - 1]) + CallOn(key, calls[|calls| - 1])
  }

  /** When the limiter of `key` was created. */
  function Born(key: string, calls: seq<StoreCall>): nat {
    if calls == [] then 0
    else if key in ViewAfter(calls[..|calls| - 1]) then Born(key, calls[..|calls| - 1])
    else calls[|calls| - 1].at
  }

  /** However the calls on different keys interleave, the bucket of a key is what its own
      calls make of a full bucket of its own limit; the results about runs of calls
      (sustained rate, window ledger) therefore hold for every key of the store. */
  lemma {:induction false} KeyRunsAlone(calls: seq<StoreCall>, key: string, limit: nat)
    requires forall k :: 0 <= k < |calls| && calls[k].key == key ==> calls[k].tpm == limit
    ensures key in ViewAfter(calls) ==>
      var e := ViewAfter(calls)[key];
      e.capacity == limit && e.bucket == Run(Fresh(limit, Born(key, calls)), limit, CallsOn(key, calls))
    ensures key !in ViewAfter(calls) ==> CallsOn(key, calls) == []
  {
    if calls != [] {
      var before, call := calls[..|calls| - 1], calls[|calls| - 1];
      KeyRunsAlone(before, key, limit);
      var own := CallOn(key, call);
      OneCallOn(ViewAfter(before), key, call, limit);
      RunAppend(Fresh(limit, Born(key, calls)), limit, CallsOn(key, before), own);
    }
  }

  /** One store call moves the bucket of `key` by its call on that key, if it makes any. */
  lemma OneCallOn(view: View, key: string, call: StoreCall, limit: nat)
    requires call.key == key ==> call.tpm == limit
    requires key in view ==> view[key].capacity == limit
    ensures var own, view' := CallOn(key, call), ViewStep(view, call);
      && (key !in view' ==> key !in view && own == [])
      && (key in view' ==>
          && view'[key].capacity == limit
          && view'[key].bucket == Run(if key in view then view[key].bucket else Fresh(limit, call.at), limit, own))
  {
    RunShort(if key in view then view[key].bucket else Fresh(limit, call.at), limit, CallOn(key, call));
  }

  // ---- what a check answers ----

  /** The limiter a call on `key` meets. */
  function Met(view: View, key: string, tpm: nat, now: nat): Entry {
    if key in view then view[key] else Entry(tpm, Fresh(tpm, now), now)
  }

  /** Tokens that a check deducts from the bucket it meets. */
  function CheckTakes(view: View, key: string, rpm: nat, tpm: nat, estimated: nat, verdict: RpmVerdict, now: nat, statNow: nat): nat {
    var e := Met(view, key, tpm, now);
    Deducted(e.bucket, e.capacity, CallOn(key, CheckCall(key, rpm, tpm, estimated, verdict, now, statNow)))
  }

  /** MAIN RESULT (verdict of a check): a check that counts tokens is allowed exactly when it
      took them all, one that counts none exactly when the request rate does not refuse it,
      and a refused one takes nothing.  Limit and delay are those of whoever refused. */
  lemma CheckVerdict(view: View, key: string, rpm: nat, tpm: nat, estimated: nat, verdict: RpmVerdict, now: nat, statNow: nat)
    ensures var r := CheckResult(view, key, rpm, tpm, estimated, verdict, now);
      var taken := CheckTakes(view, key, rpm, tpm, estimated, verdict, now, statNow);
      && (tpm > 0 && estimated > 0 ==> (r.allowed <==> taken == estimated))
      && (tpm == 0 || estimated == 0 ==> (r.allowed <==> !(rpm > 0 && verdict.RpmRefused?)) && taken == 0)
      && (!r.allowed ==> taken == 0)
      && (rpm > 0 && verdict.RpmRefused? ==> r == Result(false, rpm, verdict.waitSecs))
      && (!r.allowed && !(rpm > 0 && verdict.RpmRefused?) ==> r.limit == tpm)
      && (r.allowed ==> r == Result(true, if rpm > 0 then rpm else tpm, 0.0))
  {
    var e := Met(view, key, tpm, now);
    RunShort(e.bucket, e.capacity, CallOn(key, CheckCall(key, rpm, tpm, estimated, verdict, now, statNow)));
  }

  /** After the delay of a TPM refusal, in whole milliseconds, the same check is allowed
      unless its request rate refuses it. */
  lemma DelayAdmits(view: View, key: string, rpm: nat, tpm: nat, estimated: nat, now: nat, statNow: nat, later: nat)
    requires tpm > 0 && 0 < estimated <= tpm && now <= later
    requires var e := Met(view, key, tpm, now); e.capacity == tpm && Sane(e.bucket, tpm, now)
    requires var r := CheckResult(view, key, rpm, tpm, estimated, RpmAdmitted, now);
      !r.allowed && ((later - now) / 1_000_000) as real >= 1000.0 * r.resetAfterSecs
    ensures var after := ViewAfterCheck(view, key, rpm, tpm, estimated, RpmAdmitted, now, statNow);
      CheckResult(after, key, rpm, tpm, estimated, RpmAdmitted, later).allowed
  {
    RetryAfterSuffices(Met(view, key, tpm, now).bucket, tpm, estimated, now, statNow, later);
  }

  /** Every bucket of the store is sane, so the delay is good for every key. */
  lemma {:induction false} StoreSane(calls: seq<StoreCall>, key: string, limit: nat, now: nat)
    requires limit >= 1
    requires forall k :: 0 <= k < |calls| ==> calls[k].at <= now
    requires forall k :: 0 <= k < |calls| && calls[k].key == key ==> calls[k].tpm == limit
    ensures var e := Met(ViewAfter(calls), key, limit, now); e.capacity == limit && Sane(e.bucket, limit, now)
  {
    if calls != [] {
      var before, call := calls[..|calls| - 1], calls[|calls| - 1];
      StoreSane(before, key, limit, now);
      OneCallSane(ViewAfter(before), key, call, limit, now);
    }
  }

  lemma OneCallSane(view: View, key: string, call: StoreCall, limit: nat, now: nat)
    requires limit >= 1 && call.at <= now && (call.key == key ==> call.tpm == limit)
    requires key in view ==> view[key].capacity == limit && Sane(view[key].bucket, limit, now)
    ensures key in ViewStep(view, call) ==>
      ViewStep(view, call)[key].capacity == limit && Sane(ViewStep(view, call)[key].bucket, limit, now)
  {}

  // ---- use and cleanup ----

  /** A pass of the cleanup keeps exactly the limiters used less than 600 whole seconds ago. */
  lemma CleanupKeeps(view: View, key: string, now: nat)
    ensures key in ViewAfterCleanup(view, now) <==>
      key in view && now / 1_000_000_000 - view[key].lastUsed / 1_000_000_000 < 600
    ensures key in ViewAfterCleanup(view, now) ==> ViewAfterCleanup(view, now)[key] == view[key]
  {}

  /** A check that meets the limiter, or a consumption, counts as use: the limiter survives
      every cleanup of the next 600 seconds.  A read of the statistics does not. */
  lemma UseIsStamped(view: View, call: StoreCall, key: string)
    ensures var after := ViewStep(view, call);
      && (call.key != key ==> (key in after <==> key in view) && (key in view ==> after[key] == view[key]))
      && (call.key == key && call.CheckCall? && (call.rpm > 0 || (call.tpm > 0 && call.estimated > 0)) ==>
          key in after && after[key].lastUsed == call.at)
      && (call.key == key && call.ConsumeCall? && call.tpm > 0 && call.amount > 0 ==>
          key in after && after[key].lastUsed == call.at)
      && (call.key == key && call.StateCall? && key in view ==> key in after && after[key].lastUsed == view[key].lastUsed)
      && (call.CheckCall? && call.rpm == 0 && (call.tpm == 0 || call.estimated == 0) ==> after == view)
      && (!call.CheckCall? && call.tpm == 0 ==> after == view)
  {}
}
