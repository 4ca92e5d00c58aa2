/** The shared fixed-window limiter of src/sync/redis_sync.rs.

    A check is two commands on the Redis server: INCR, whose reply decides the verdict, and
    EXPIRE, sent only by the call whose INCR answered 1.  Any number of router instances run
    any number of checks; between a call's two commands anything may happen, and the EXPIRE
    may get lost: its reply is ignored, and an instance can die.  Each command is atomic.  Times are milliseconds on the server. */
module SharedLimiter {
  import opened Basics

  const WINDOW: nat := 60_000

  datatype Counter = Counter(count: nat, expireAt: Option<nat>)

  /** The reply to one check: its INCR ran at `at` in lifetime `life` of the counter. */
  datatype Verdict = Verdict(at: nat, life: nat, count: nat, allowed: bool)

  /** `owed`: calls that still have to send EXPIRE.  `births` (history): when each lifetime
      of the counter began.  `verdicts` (history): the replies so far. */
  datatype System = System(counter: Option<Counter>, owed: set<nat>, clock: nat,
                           births: seq<nat>, verdicts: seq<Verdict>)

  datatype Step = Incr(call: nat, at: nat) | Expire(call: nat, at: nat) | Lose(call: nat, at: nat) | Remove(at: nat)

  const START := System(None, {}, 0, [], [])

  predicate Enabled(s: System, step: Step) {
    && s.clock <= step.at
    && match step
       case Incr(call, _) => call !in s.owed
       case Expire(call, _) => call in s.owed
       case Lose(call, _) => call in s.owed
       // the server drops a key at some moment after its deadline
       case Remove(at) => s.counter.Some? && s.counter.value.expireAt.Some? && s.counter.value.expireAt.value <= at
  }

  function Next(s: System, limit: nat, step: Step): System {
    match step
    case Incr(call, at) =>
      var count := if s.counter.Some? then s.counter.value.count + 1 else 1;
      var expireAt := if s.counter.Some? then s.counter.value.expireAt else None;
      var births := if s.counter.Some? then s.births else s.births + [at];
      System(Some(Counter(count, expireAt)),
             if count == 1 then s.owed + {call} else s.owed,
             at, births,
             s.verdicts + [Verdict(at, if |births| > 0 then |births| - 1 else 0, count, count <= limit)])
    case Expire(call, at) =>
      s.(owed := s.owed - {call}, clock := at,
         counter := if s.counter.Some? then Some(s.counter.value.(expireAt := Some(at + WINDOW))) else None)
    case Lose(call, at) => s.(owed := s.owed - {call}, clock := at)
    case Remove(at) => s.(counter := None, clock := at)
  }

  function After(limit: nat, steps: seq<Step>): System {
    if steps == [] then START else Next(After(limit, steps[..|steps| - 1]), limit, steps[|steps| - 1])
  }

  predicate Legal(limit: nat, steps: seq<Step>) {
    steps == [] || (
      && Legal(limit, steps[..|steps| - 1])
      && Enabled(After(limit, steps[..|steps| - 1]), steps[|steps| - 1]))
  }

  // ---- counting verdicts ----

  function IncrsIn(vs: seq<Verdict>, life: nat): nat {
    if vs == [] then 0 else
      IncrsIn(vs[..|vs| - 1], life) + (if vs[|vs| - 1].life == life then 1 else 0)
  }

  function AllowedIn(vs: seq<Verdict>, life: nat): nat {
    if vs == [] then 0 else
      AllowedIn(vs[..|vs| - 1], life) + (if vs[|vs| - 1].life == life && vs[|vs| - 1].allowed then 1 else 0)
  }

  predicate InWindowAt(at: nat, x: nat) {
    x <= at < x + WINDOW
  }

  predicate InWindow(v: Verdict, x: nat) {
    InWindowAt(v.at, x)
  }

  /** Allowed verdicts in the interval of one window length that starts at x. */
  function AllowedDuring(vs: seq<Verdict>, x: nat): nat {
    if vs == [] then 0 else
      AllowedDuring(vs[..|vs| - 1], x) + (if InWindow(vs[|vs| - 1], x) && vs[|vs| - 1].allowed then 1 else 0)
  }

  function AllowedDuringIn(vs: seq<Verdict>, x: nat, life: nat): nat {
    if vs == [] then 0 else
      AllowedDuringIn(vs[..|vs| - 1], x, life)
      + (if InWindow(vs[|vs| - 1], x) && vs[|vs| - 1].allowed && vs[|vs| - 1].life == life then 1 else 0)
  }

  /** The counts are those of verdicts: allowed within 60000 ms from x on, all of a lifetime,
      and the allowed ones of a lifetime. */
  lemma {:induction false} DuringAre(vs: seq<Verdict>, x: nat)
    ensures AllowedDuring(vs, x) == |set k | 0 <= k < |vs| && vs[k].allowed && x <= vs[k].at < x + 60_000|
  {
    if vs != [] {
      var ws, n := vs[..|vs| - 1], |vs| - 1;
      DuringAre(ws, x);
      assert (set k | 0 <= k < |vs| && vs[k].allowed && x <= vs[k].at < x + 60_000) ==
        (set k | 0 <= k < |ws| && ws[k].allowed && x <= ws[k].at < x + 60_000)
        + if vs[n].allowed && x <= vs[n].at < x + 60_000 then {n} else {};
    }
  }

  lemma {:induction false} IncrsAre(vs: seq<Verdict>, life: nat)
    ensures IncrsIn(vs, life) == |set k | 0 <= k < |vs| && vs[k].life == life|
  {
    if vs != [] {
      var ws, n := vs[..|vs| - 1], |vs| - 1;
      IncrsAre(ws, life);
      assert (set k | 0 <= k < |vs| && vs[k].life == life) ==
        (set k | 0 <= k < |ws| && ws[k].life == life) + if vs[n].life == life then {n} else {};
    }
  }

  lemma {:induction false} AllowedAre(vs: seq<Verdict>, life: nat)
    ensures AllowedIn(vs, life) == |set k | 0 <= k < |vs| && vs[k].life == life && vs[k].allowed|
  {
    if vs != [] {
      var ws, n := vs[..|vs| - 1], |vs| - 1;
      AllowedAre(ws, life);
      assert (set k | 0 <= k < |vs| && vs[k].life == life && vs[k].allowed) ==
        (set k | 0 <= k < |ws| && ws[k].life == life && ws[k].allowed)
        + if vs[n].life == life && vs[n].allowed then {n} else {};
    }
  }

  // ---- what every step keeps ----

  /** Every verdict carries its rank in its lifetime, and is allowed up to the limit. */
  ghost predicate Counted(limit: nat, vs: seq<Verdict>) {
    vs == [] || (
      var last := vs[|vs| - 1];
      && Counted(limit, vs[..|vs| - 1])
      && last.count == IncrsIn(vs, last.life)
      && last.allowed == (last.count <= limit))
  }

  /** Lifetimes are at least a window apart, and every verdict lies between the birth of its
      lifetime and the next. */
  ghost predicate Placed(births: seq<nat>, vs: seq<Verdict>) {
    && (forall l, m :: 0 <= l < m < |births| ==> births[l] + WINDOW <= births[m])
    && (forall i :: 0 <= i < |vs| ==>
          && vs[i].life < |births|
          && births[vs[i].life] <= vs[i].at
          && (vs[i].count == 1 ==> vs[i].at == births[vs[i].life]))
    && (forall i, l :: 0 <= i < |vs| && vs[i].life < l < |births| ==> vs[i].at <= births[l])
  }

  ghost predicate Past(births: seq<nat>, vs: seq<Verdict>, clock: nat) {
    && (forall i :: 0 <= i < |vs| ==> vs[i].at <= clock)
    && (forall l :: 0 <= l < |births| ==> births[l] <= clock)
  }

  /** At most one EXPIRE is outstanding while the counter has no deadline (none if it was
      lost), and none otherwise; and the counter goes away no sooner than a window after its birth. */
  ghost predicate Owing(counter: Option<Counter>, owed: set<nat>, births: seq<nat>, clock: nat) {
    && (counter.None? ==> owed == {} && (births != [] ==> births[|births| - 1] + WINDOW <= clock))
    && (counter.Some? ==>
        && births != []
        && (counter.value.expireAt.None? ==> owed == {} || exists call :: owed == {call})
        && (counter.value.expireAt.Some? ==>
              owed == {} && births[|births| - 1] + WINDOW <= counter.value.expireAt.value))
  }

  ghost predicate Inv(limit: nat, s: System) {
    && Counted(limit, s.verdicts)
    && Placed(s.births, s.verdicts)
    && Past(s.births, s.verdicts, s.clock)
    && Owing(s.counter, s.owed, s.births, s.clock)
    && (s.counter.Some? ==> s.counter.value.count == IncrsIn(s.verdicts, |s.births| - 1) >= 1)
  }

  lemma {:induction false} NoneIn(vs: seq<Verdict>, life: nat)
    requires forall i :: 0 <= i < |vs| ==> vs[i].life != life
    ensures IncrsIn(vs, life) == 0
  {
    if vs != [] { NoneIn(vs[..|vs| - 1], life); }
  }

  lemma CountedNext(limit: nat, vs: seq<Verdict>, v: Verdict)
    requires Counted(limit, vs)
    requires v.count == IncrsIn(vs, v.life) + 1 && v.allowed == (v.count <= limit)
    ensures Counted(limit, vs + [v]) && IncrsIn(vs + [v], v.life) == v.count
  {
    assert (vs + [v])[..|vs|] == vs;
  }

  /** A verdict of the running lifetime. */
  lemma PlacedSame(births: seq<nat>, vs: seq<Verdict>, v: Verdict)
    requires Placed(births, vs) && births != [] && v.life == |births| - 1
    requires births[v.life] <= v.at && v.count > 1
    ensures Placed(births, vs + [v])
  {}

  /** The first verdict of a new lifetime. */
  lemma PlacedNew(births: seq<nat>, vs: seq<Verdict>, v: Verdict)
    requires Placed(births, vs) && v.life == |births|
    requires births != [] ==> births[|births| - 1] + WINDOW <= v.at
    requires forall i :: 0 <= i < |vs| ==> vs[i].at <= v.at
    ensures Placed(births + [v.at], vs + [v])
  {
    var births', vs' := births + [v.at], vs + [v];
    forall i | 0 <= i < |vs'|
      ensures vs'[i].life < |births'| && births'[vs'[i].life] <= vs'[i].at
      ensures vs'[i].count == 1 ==> vs'[i].at == births'[vs'[i].life]
      ensures forall l :: vs'[i].life < l < |births'| ==> vs'[i].at <= births'[l]
    {
      if i < |vs| { assert vs'[i] == vs[i]; }
    }
  }

  /** The verdict of the next check. */
  function NextVerdict(s: System, limit: nat, at: nat): Verdict {
    var count := if s.counter.Some? then s.counter.value.count + 1 else 1;
    var lives := |s.births| + if s.counter.Some? then 0 else 1;
    Verdict(at, if lives > 0 then lives - 1 else 0, count, count <= limit)
  }

  lemma IncrEffect(limit: nat, s: System, call: nat, at: nat)
    ensures var s' := Next(s, limit, Incr(call, at));
      && s'.verdicts == s.verdicts + [NextVerdict(s, limit, at)]
      && s'.births == (if s.counter.Some? then s.births else s.births + [at])
      && s'.clock == at
  {}

  lemma PlacedIncr(limit: nat, s: System, at: nat)
    requires Placed(s.births, s.verdicts) && Past(s.births, s.verdicts, s.clock)
    requires Owing(s.counter, s.owed, s.births, s.clock) && s.clock <= at
    requires s.counter.Some? ==> s.counter.value.count >= 1
    ensures Placed(if s.counter.Some? then s.births else s.births + [at], s.verdicts + [NextVerdict(s, limit, at)])
  {
    var v := NextVerdict(s, limit, at);
    if s.counter.None? { PlacedNew(s.births, s.verdicts, v); } else { PlacedSame(s.births, s.verdicts, v); }
  }

  lemma CountedIncr(limit: nat, s: System, at: nat)
    requires Counted(limit, s.verdicts)
    requires forall i :: 0 <= i < |s.verdicts| ==> s.verdicts[i].life < |s.births|
    requires s.counter.Some? ==> s.births != [] && s.counter.value.count == IncrsIn(s.verdicts, |s.births| - 1)
    ensures var v := NextVerdict(s, limit, at);
      Counted(limit, s.verdicts + [v]) && IncrsIn(s.verdicts + [v], v.life) == v.count
  {
    if s.counter.None? { NoneIn(s.verdicts, |s.births|); }
    CountedNext(limit, s.verdicts, NextVerdict(s, limit, at));
  }

  lemma OwingIncr(limit: nat, s: System, call: nat, at: nat)
    requires Owing(s.counter, s.owed, s.births, s.clock) && Enabled(s, Incr(call, at))
    requires s.counter.Some? ==> s.counter.value.count >= 1
    ensures var s' := Next(s, limit, Incr(call, at)); Owing(s'.counter, s'.owed, s'.births, s'.clock)
  {
    if s.counter.None? { assert Next(s, limit, Incr(call, at)).owed == {call}; }
  }

  lemma PastNext(births: seq<nat>, vs: seq<Verdict>, clock: nat, v: Verdict)
    requires Past(births, vs, clock) && clock <= v.at
    ensures Past(births, vs + [v], v.at) && Past(births + [v.at], vs + [v], v.at)
  {}

  lemma InvIncr(limit: nat, s: System, call: nat, at: nat)
    requires Inv(limit, s) && Enabled(s, Incr(call, at))
    ensures Inv(limit, Next(s, limit, Incr(call, at)))
  {
    IncrEffect(limit, s, call, at);
    PlacedIncr(limit, s, at);
    CountedIncr(limit, s, at);
    PastNext(s.births, s.verdicts, s.clock, NextVerdict(s, limit, at));
    OwingIncr(limit, s, call, at);
  }

  lemma {:induction false} InvAlways(limit: nat, steps: seq<Step>)
    requires Legal(limit, steps)
    ensures Inv(limit, After(limit, steps))
  {
    if steps != [] {
      var s, step := After(limit, steps[..|steps| - 1]), steps[|steps| - 1];
      InvAlways(limit, steps[..|steps| - 1]);
      if step.Incr? {
        InvIncr(limit, s, step.call, step.at);
      }
    }
  }

  // ---- results ----

  lemma {:induction false} QuotaOfCounted(limit: nat, vs: seq<Verdict>, life: nat)
    requires Counted(limit, vs)
    ensures AllowedIn(vs, life) == if IncrsIn(vs, life) <= limit then IncrsIn(vs, life) else limit
  {
    if vs != [] { QuotaOfCounted(limit, vs[..|vs| - 1], life); }
  }

  /** MAIN RESULT: in every run each lifetime of the counter allows exactly
      min(limit, INCRs) checks. */
  lemma LifetimeQuota(limit: nat, steps: seq<Step>, life: nat)
    requires Legal(limit, steps)
    ensures var vs := After(limit, steps).verdicts;
      AllowedIn(vs, life) == if IncrsIn(vs, life) <= limit then IncrsIn(vs, life) else limit
  {
    InvAlways(limit, steps);
    QuotaOfCounted(limit, After(limit, steps).verdicts, life);
  }

  /** If the interval starts after a lifetime began, it misses that lifetime's first check. */
  lemma {:induction false} MissesFirst(limit: nat, births: seq<nat>, vs: seq<Verdict>, x: nat, life: nat)
    requires limit >= 1 && Counted(limit, vs) && Placed(births, vs)
    requires life < |births|
    ensures AllowedDuringIn(vs, x, life) <= AllowedIn(vs, life)
    ensures births[life] < x && IncrsIn(vs, life) >= 1 ==> AllowedDuringIn(vs, x, life) + 1 <= AllowedIn(vs, life)
  {
    if vs != [] {
      var before := vs[..|vs| - 1];
      MissesFirst(limit, births, before, x, life);
    }
  }

  lemma {:induction false} OnlyTwoLives(vs: seq<Verdict>, x: nat, life: nat)
    requires forall i :: 0 <= i < |vs| && InWindow(vs[i], x) ==> vs[i].life == life || vs[i].life == life + 1
    ensures AllowedDuring(vs, x) == AllowedDuringIn(vs, x, life) + AllowedDuringIn(vs, x, life + 1)
  {
    if vs != [] { OnlyTwoLives(vs[..|vs| - 1], x, life); }
  }

  lemma {:induction false} NoneDuringIn(vs: seq<Verdict>, x: nat, life: nat)
    requires forall i :: 0 <= i < |vs| && InWindow(vs[i], x) ==> vs[i].life != life
    ensures AllowedDuringIn(vs, x, life) == 0
  {
    if vs != [] { NoneDuringIn(vs[..|vs| - 1], x, life); }
  }

  lemma {:induction false} SomeIn(vs: seq<Verdict>, i: nat)
    requires i < |vs|
    ensures IncrsIn(vs, vs[i].life) >= 1
  {
    if i < |vs| - 1 { SomeIn(vs[..|vs| - 1], i); }
  }

  ghost predicate NoneInWindow(vs: seq<Verdict>, x: nat) {
    forall i :: 0 <= i < |vs| ==> !InWindow(vs[i], x)
  }

  /** A verdict in the interval whose lifetime is the earliest. */
  ghost predicate IsFirst(vs: seq<Verdict>, x: nat, f: nat) {
    && f < |vs| && InWindow(vs[f], x)
    && forall i :: 0 <= i < |vs| && InWindow(vs[i], x) ==> vs[f].life <= vs[i].life
  }

  lemma {:induction false} FirstLife(vs: seq<Verdict>, x: nat) returns (f: nat)
    ensures NoneInWindow(vs, x) || IsFirst(vs, x, f)
  {
    f := 0;
    if vs != [] {
      var before, last := vs[..|vs| - 1], vs[|vs| - 1];
      f := FirstLife(before, x);
      assert forall i :: 0 <= i < |before| ==> before[i] == vs[i];
      if InWindow(last, x) && (NoneInWindow(before, x) || last.life < before[f].life) { f := |vs| - 1; }
    }
  }

  /** An interval of one window length meets at most two consecutive lifetimes. */
  lemma TwoLives(births: seq<nat>, vs: seq<Verdict>, x: nat, life: nat, f: nat, i: nat)
    requires Placed(births, vs) && f < |vs| && i < |vs|
    requires InWindow(vs[f], x) && vs[f].life == life && InWindow(vs[i], x) && life <= vs[i].life
    ensures vs[i].life == life || vs[i].life == life + 1
    ensures vs[i].life == life + 1 ==> births[life] < x
  {
    if vs[i].life > life {
      assert vs[f].at <= births[life + 1];
      assert births[life] + WINDOW <= births[life + 1];
    }
  }

  /** MAIN RESULT: however many instances share the counter and however late each EXPIRE
      runs, no interval of one minute holds more than 2 * limit - 1 allowed checks. */
  lemma AnyMinute(limit: nat, steps: seq<Step>, x: nat)
    requires limit >= 1 && Legal(limit, steps)
    ensures AllowedDuring(After(limit, steps).verdicts, x) <= 2 * limit - 1
  {
    InvAlways(limit, steps);
    AnyMinuteOf(limit, After(limit, steps).births, After(limit, steps).verdicts, x);
  }

  lemma AnyMinuteOf(limit: nat, births: seq<nat>, vs: seq<Verdict>, x: nat)
    requires limit >= 1 && Counted(limit, vs) && Placed(births, vs)
    ensures AllowedDuring(vs, x) <= 2 * limit - 1
  {
    var f := FirstLife(vs, x);
    if NoneInWindow(vs, x) { NoneDuring(vs, x); } else { AnyMinuteFrom(limit, births, vs, x, f); }
  }

  lemma {:induction false} NoneDuring(vs: seq<Verdict>, x: nat)
    requires NoneInWindow(vs, x)
    ensures AllowedDuring(vs, x) == 0
  {
    if vs != [] {
      assert !InWindow(vs[|vs| - 1], x);
      NoneDuring(vs[..|vs| - 1], x);
    }
  }

  lemma AnyMinuteFrom(limit: nat, births: seq<nat>, vs: seq<Verdict>, x: nat, f: nat)
    requires limit >= 1 && Counted(limit, vs) && Placed(births, vs) && IsFirst(vs, x, f)
    ensures AllowedDuring(vs, x) <= 2 * limit - 1
  {
    var life := vs[f].life;
    forall i | 0 <= i < |vs| && InWindow(vs[i], x) ensures vs[i].life == life || vs[i].life == life + 1 {
      TwoLives(births, vs, x, life, f, i);
    }
    OnlyTwoLives(vs, x, life);
    SomeIn(vs, f);
    AtMostLimit(limit, births, vs, x, life);
    if i :| 0 <= i < |vs| && InWindow(vs[i], x) && vs[i].life == life + 1 {
      TwoLives(births, vs, x, life, f, i);
      AtMostLimit(limit, births, vs, x, life + 1);
    } else {
      NoneDuringIn(vs, x, life + 1);
    }
  }

  /** What one lifetime allows in the interval: less than the limit if it began before. */
  lemma AtMostLimit(limit: nat, births: seq<nat>, vs: seq<Verdict>, x: nat, life: nat)
    requires limit >= 1 && Counted(limit, vs) && Placed(births, vs) && life < |births|
    ensures AllowedDuringIn(vs, x, life) <= limit
    ensures births[life] < x && IncrsIn(vs, life) >= 1 ==> AllowedDuringIn(vs, x, life) + 1 <= limit
  {
    MissesFirst(limit, births, vs, x, life);
    QuotaOfCounted(limit, vs, life);
  }

  lemma Grow(limit: nat, steps: seq<Step>, step: Step)
    ensures After(limit, steps + [step]) == Next(After(limit, steps), limit, step)
    ensures Legal(limit, steps + [step]) <==> Legal(limit, steps) && Enabled(After(limit, steps), step)
  {
    assert (steps + [step])[..|steps|] == steps;
  }

  ghost predicate Reachable(limit: nat, s: System) {
    exists steps :: Legal(limit, steps) && After(limit, steps) == s
  }

  lemma Extend(limit: nat, s: System, step: Step)
    requires Reachable(limit, s) && Enabled(s, step)
    ensures Reachable(limit, Next(s, limit, step))
  {
    var steps :| Legal(limit, steps) && After(limit, steps) == s;
    Grow(limit, steps, step);
    assert Legal(limit, steps + [step]);
  }

  lemma AllowedNext(vs: seq<Verdict>, v: Verdict, x: nat)
    ensures AllowedDuring(vs + [v], x) == AllowedDuring(vs, x) + (if InWindow(v, x) && v.allowed then 1 else 0)
  {
    assert (vs + [v])[..|vs|] == vs;
  }

  /** n checks at one moment, by a call that owes no EXPIRE. */
  function Checks(limit: nat, s: System, n: nat, at: nat): System {
    if n == 0 then s else Next(Checks(limit, s, n - 1, at), limit, Incr(1, at))
  }

  lemma CheckAllowed(limit: nat, s: System, at: nat, x: nat)
    requires InWindowAt(at, x) && s.counter.Some? && s.counter.value.count < limit
    ensures AllowedDuring(Next(s, limit, Incr(1, at)).verdicts, x) == AllowedDuring(s.verdicts, x) + 1
  {
    AllowedNext(s.verdicts, Next(s, limit, Incr(1, at)).verdicts[|s.verdicts|], x);
  }

  lemma {:induction false} ChecksCount(limit: nat, s: System, n: nat, at: nat)
    requires s.counter.Some? && s.counter.value.count >= 1 && 1 !in s.owed && s.clock <= at
    ensures var s' := Checks(limit, s, n, at);
      && s'.owed == s.owed && s'.clock <= at
      && s'.counter == Some(s.counter.value.(count := s.counter.value.count + n))
  {
    if n > 0 { ChecksCount(limit, s, n - 1, at); }
  }

  /** Checks within the limit are all allowed. */
  lemma {:induction false} ChecksAllowed(limit: nat, s: System, n: nat, at: nat, x: nat)
    requires InWindowAt(at, x) && s.clock <= at && 1 !in s.owed
    requires s.counter.Some? && 1 <= s.counter.value.count <= limit - n
    ensures AllowedDuring(Checks(limit, s, n, at).verdicts, x) == AllowedDuring(s.verdicts, x) + n
  {
    if n > 0 {
      ChecksAllowed(limit, s, n - 1, at, x);
      ChecksCount(limit, s, n - 1, at);
      CheckAllowed(limit, Checks(limit, s, n - 1, at), at, x);
    }
  }

  lemma {:induction false} ChecksReachable(limit: nat, s: System, n: nat, at: nat)
    requires Reachable(limit, s)
    requires s.counter.Some? && s.counter.value.count >= 1 && 1 !in s.owed && s.clock <= at
    ensures Reachable(limit, Checks(limit, s, n, at))
  {
    if n > 0 {
      ChecksReachable(limit, s, n - 1, at);
      ChecksCount(limit, s, n - 1, at);
      Extend(limit, Checks(limit, s, n - 1, at), Incr(1, at));
    }
  }

  /** The bound is reached for every limit, so a fixed window is not a per-minute limit: one
      check opens a window, limit - 1 use it up at its very end, and limit more follow in
      the next millisecond. */
  lemma EdgeBurst(limit: nat)
    requires limit >= 1
    ensures exists s :: Reachable(limit, s) && AllowedDuring(s.verdicts, WINDOW - 1) == 2 * limit - 1
  {
    var s := SecondWindow(limit);
    s := ManyChecks(limit, s, limit - 1, WINDOW, WINDOW - 1);
  }

  /** The first window, used up at its end, and the check that opens the second. */
  lemma SecondWindow(limit: nat) returns (s: System)
    requires limit >= 1
    ensures Reachable(limit, s)
    ensures s.counter == Some(Counter(1, None)) && s.owed == {0} && s.clock == WINDOW
    ensures AllowedDuring(s.verdicts, WINDOW - 1) == limit
  {
    s := FirstWindow(limit);
    s := ManyChecks(limit, s, limit - 1, WINDOW - 1, WINDOW - 1);
    s := NextWindow(limit, s, WINDOW - 1);
  }

  lemma ManyChecks(limit: nat, s: System, n: nat, at: nat, x: nat) returns (s': System)
    requires Reachable(limit, s) && InWindowAt(at, x) && s.clock <= at && 1 !in s.owed
    requires s.counter.Some? && 1 <= s.counter.value.count <= limit - n
    ensures Reachable(limit, s') && s'.clock <= at && s'.owed == s.owed
    ensures s'.counter == Some(s.counter.value.(count := s.counter.value.count + n))
    ensures AllowedDuring(s'.verdicts, x) == AllowedDuring(s.verdicts, x) + n
  {
    ChecksReachable(limit, s, n, at);
    ChecksAllowed(limit, s, n, at, x);
    ChecksCount(limit, s, n, at);
    s' := Checks(limit, s, n, at);
  }

  /** One check and its EXPIRE, at time zero. */
  lemma FirstWindow(limit: nat) returns (s: System)
    requires limit >= 1
    ensures Reachable(limit, s)
    ensures s.counter == Some(Counter(1, Some(WINDOW))) && s.owed == {} && s.clock == 0
    ensures AllowedDuring(s.verdicts, WINDOW - 1) == 0
  {
    var incr, expire := Incr(0, 0), Expire(0, 0);
    assert Reachable(limit, START) by { assert Legal(limit, []); }
    Extend(limit, START, incr);
    s := Next(START, limit, incr);
    Extend(limit, s, expire);
    s := Next(s, limit, expire);
    AllowedNext([], s.verdicts[0], WINDOW - 1);
  }

  /** The counter expires, and a check opens the next window. */
  lemma NextWindow(limit: nat, s: System, x: nat) returns (s': System)
    requires limit >= 1 && Reachable(limit, s) && x == WINDOW - 1
    requires s.clock <= WINDOW && s.owed == {} && s.counter.Some? && s.counter.value.expireAt == Some(WINDOW)
    ensures Reachable(limit, s')
    ensures s'.counter == Some(Counter(1, None)) && s'.owed == {0} && s'.clock == WINDOW
    ensures AllowedDuring(s'.verdicts, x) == AllowedDuring(s.verdicts, x) + 1
  {
    var remove, incr := Remove(WINDOW), Incr(0, WINDOW);
    Extend(limit, s, remove);
    s' := Next(s, limit, remove);
    Extend(limit, s', incr);
    s' := Next(s', limit, incr);
    AllowedNext(s.verdicts, s'.verdicts[|s.verdicts|], x);
  }

  // ---- a counter that is used up ----

  /** The continuation of a run from any state. */
  function From(limit: nat, s: System, steps: seq<Step>): System {
    if steps == [] then s else Next(From(limit, s, steps[..|steps| - 1]), limit, steps[|steps| - 1])
  }

  predicate EnabledFrom(limit: nat, s: System, steps: seq<Step>) {
    steps == [] || (
      && EnabledFrom(limit, s, steps[..|steps| - 1])
      && Enabled(From(limit, s, steps[..|steps| - 1]), steps[|steps| - 1]))
  }

  predicate UsedUp(limit: nat, s: System) {
    s.counter.Some? && s.counter.value.count >= limit
  }

  /** How many checks ran since the counter was last removed, if it was. */
  function SinceRemove(steps: seq<Step>): Option<nat> {
    if steps == [] then None else
      var before := SinceRemove(steps[..|steps| - 1]);
      match steps[|steps| - 1]
      case Remove(_) => Some(0)
      case Expire(_, _) => before
      case Lose(_, _) => before
      case Incr(_, _) => if before.Some? then Some(before.value + 1) else None
  }

  lemma {:induction false} CountFrom(limit: nat, s: System, steps: seq<Step>)
    requires UsedUp(limit, s)
    ensures var s' := From(limit, s, steps);
      match SinceRemove(steps)
      case None => UsedUp(limit, s')
      case Some(n) => if n == 0 then s'.counter.None? else s'.counter.Some? && s'.counter.value.count == n
  {
    if steps != [] { CountFrom(limit, s, steps[..|steps| - 1]); }
  }

  /** MAIN RESULT (exact condition): once a counter is used up, a later check is allowed if
      and only if the counter was removed before it, and fewer than `limit` checks ran since
      - whatever EXPIREs arrive in between. */
  lemma UsedUpExactly(limit: nat, s: System, steps: seq<Step>, at: nat)
    requires UsedUp(limit, s)
    ensures NextVerdict(From(limit, s, steps), limit, at).allowed <==>
      SinceRemove(steps).Some? && SinceRemove(steps).value < limit
  {
    CountFrom(limit, s, steps);
  }

  predicate NoDeadline(s: System) {
    s.counter.Some? && s.counter.value.expireAt.None? && s.counter.value.count >= 1
  }

  lemma {:induction false} NoDeadlineStays(limit: nat, s: System, steps: seq<Step>)
    requires NoDeadline(s) && EnabledFrom(limit, s, steps)
    requires s.owed == {} || forall k :: 0 <= k < |steps| ==> !steps[k].Expire?
    ensures NoDeadline(From(limit, s, steps)) && From(limit, s, steps).owed <= s.owed
    ensures SinceRemove(steps).None?
  {
    if steps != [] { NoDeadlineStays(limit, s, steps[..|steps| - 1]); }
  }

  /** If the EXPIRE is lost, a used-up counter refuses every later check, forever. */
  lemma LostExpireLocksOut(limit: nat, s: System, steps: seq<Step>, at: nat)
    requires UsedUp(limit, s) && NoDeadline(s) && EnabledFrom(limit, s, steps)
    requires forall k :: 0 <= k < |steps| ==> !steps[k].Expire?
    ensures !NextVerdict(From(limit, s, steps), limit, at).allowed
  {
    NoDeadlineStays(limit, s, steps);
    UsedUpExactly(limit, s, steps, at);
  }

  /** Some continuation leads to an allowed check. */
  ghost predicate CanRecover(limit: nat, s: System) {
    exists steps, at: nat :: EnabledFrom(limit, s, steps) && NextVerdict(From(limit, s, steps), limit, at).allowed
  }

  /** MAIN RESULT (exact condition): a used-up counter without a deadline can allow a check
      again if and only if some instance still has to send its EXPIRE. */
  lemma RecoversExactly(limit: nat, s: System)
    requires limit >= 1 && UsedUp(limit, s) && NoDeadline(s)
    ensures CanRecover(limit, s) <==> s.owed != {}
  {
    if s.owed == {} {
      forall steps, at: nat | EnabledFrom(limit, s, steps) ensures !NextVerdict(From(limit, s, steps), limit, at).allowed {
        NoDeadlineStays(limit, s, steps);
        UsedUpExactly(limit, s, steps, at);
      }
    } else {
      var call :| call in s.owed;
      var one := [] + [Expire(call, s.clock)];
      FromNext(limit, s, [], Expire(call, s.clock));
      ExpiryReopens(limit, s, one, Next(s, limit, Expire(call, s.clock)));
    }
  }

  lemma ExpiryReopens(limit: nat, s: System, steps: seq<Step>, s': System)
    requires limit >= 1 && EnabledFrom(limit, s, steps) && From(limit, s, steps) == s'
    requires s'.counter.Some? && s'.counter.value.expireAt == Some(s'.clock + WINDOW)
    ensures CanRecover(limit, s)
  {
    var remove := Remove(s'.clock + WINDOW);
    FromNext(limit, s, steps, remove);
    assert EnabledFrom(limit, s, steps + [remove]);
    assert NextVerdict(From(limit, s, steps + [remove]), limit, remove.at).allowed;
  }

  lemma FromNext(limit: nat, s: System, steps: seq<Step>, step: Step)
    ensures From(limit, s, steps + [step]) == Next(From(limit, s, steps), limit, step)
    ensures EnabledFrom(limit, s, steps + [step]) <==> EnabledFrom(limit, s, steps) && Enabled(From(limit, s, steps), step)
  {
    assert (steps + [step])[..|steps|] == steps;
  }

  /** The locked-out state is real: for every limit a reachable counter is used up, has no
      deadline, and can never allow a check again. */
  lemma LockOutReachable(limit: nat)
    requires limit >= 1
    ensures exists s :: Reachable(limit, s) && UsedUp(limit, s) && !CanRecover(limit, s)
  {
    var s := FirstLost(limit);
    s := ManyChecks(limit, s, limit - 1, 0, 0);
    RecoversExactly(limit, s);
  }

  /** One check whose EXPIRE is lost. */
  lemma FirstLost(limit: nat) returns (s: System)
    requires limit >= 1
    ensures Reachable(limit, s)
    ensures s.counter == Some(Counter(1, None)) && s.owed == {} && s.clock == 0
  {
    var incr, lose := Incr(0, 0), Lose(0, 0);
    assert Reachable(limit, START) by { assert Legal(limit, []); }
    Extend(limit, START, incr);
    s := Next(START, limit, incr);
    Extend(limit, s, lose);
    s := Next(s, limit, lose);
  }
}
