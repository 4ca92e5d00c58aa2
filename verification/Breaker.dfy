/** The circuit breaker of src/fail2ban/breaker.rs.

    `Fail2ban` is the object the router uses.  Its answers are proved against a predicate
    over the history of events of an endpoint (`Banned`), which mentions no counter and no
    deadline.  Instants are nanoseconds; the error threshold is a real. */
module Breaker {
  import opened Basics

  datatype Config = Config(maxFailures: nat, banDuration: nat, threshold: real, patterns: seq<FailPattern>)
  datatype FailPattern = Range(lo: nat, hi: nat) | Exact(code: nat)

  datatype EndpointState = EndpointState(
    consecutive: nat, requests: nat, failures: nat, bannedUntil: Option<nat>, lastCode: nat)

  const MIN_REQUESTS: nat := 10

  /** What happened to one endpoint. */
  datatype Event = Success(at: nat) | Failure(at: nat, code: nat) | Reset(at: nat) | Query(at: nat)

  // ---- the machine ----

  const NEW_STATE := EndpointState(0, 0, 0, None, 0)

  predicate RateExceeded(cfg: Config, failures: nat, requests: nat) {
    requests >= MIN_REQUESTS && failures as real / requests as real > cfg.threshold
  }

  function AfterFailure(cfg: Config, s: EndpointState, code: nat, now: nat): EndpointState {
    var s' := s.(requests := s.requests + 1, failures := s.failures + 1, lastCode := code,
                 consecutive := s.consecutive + 1);
    if s'.consecutive >= cfg.maxFailures || RateExceeded(cfg, s'.failures, s'.requests)
    then s'.(bannedUntil := Some(now + cfg.banDuration))
    else s'
  }

  function AfterQuery(s: EndpointState, now: nat): EndpointState {
    if s.bannedUntil.Some? && s.bannedUntil.value <= now then s.(consecutive := 0, bannedUntil := None) else s
  }

  function StateStep(cfg: Config, s: EndpointState, e: Event): EndpointState {
    match e
    case Success(_) => s.(requests := s.requests + 1, consecutive := 0)
    case Failure(at, code) => AfterFailure(cfg, s, code, at)
    case Reset(_) => s.(consecutive := 0, bannedUntil := None)
    case Query(at) => AfterQuery(s, at)
  }

  predicate InBan(s: EndpointState, now: nat) {
    s.bannedUntil.Some? && now < s.bannedUntil.value
  }

  // ---- the history ----

  predicate Ordered(h: seq<Event>) {
    forall i, j :: 0 <= i < j < |h| ==> h[i].at <= h[j].at
  }

  function Failures(h: seq<Event>): nat {
    if h == [] then 0 else Failures(h[..|h| - 1]) + (if h[|h| - 1].Failure? then 1 else 0)
  }

  function Requests(h: seq<Event>): nat {
    if h == [] then 0
    else Requests(h[..|h| - 1]) + (if h[|h| - 1].Failure? || h[|h| - 1].Success? then 1 else 0)
  }

  /** Failures at the end of the history since the last success, reset, or query that
      observed the expiry of a ban. */
  ghost function Trailing(cfg: Config, h: seq<Event>): nat
    decreases |h|, 0
  {
    if h == [] then 0 else
      var before := h[..|h| - 1];
      match h[|h| - 1]
      case Failure(_, _) => Trailing(cfg, before) + 1
      case Success(_) => 0
      case Reset(_) => 0
      case Query(at) => if ObservesExpiry(cfg, before, at) then 0 else Trailing(cfg, before)
  }

  /** The failure that ends this history bans the endpoint. */
  ghost predicate Triggers(cfg: Config, h: seq<Event>)
    decreases |h|, 1
  {
    && h != [] && h[|h| - 1].Failure?
    && (Trailing(cfg, h) >= cfg.maxFailures || RateExceeded(cfg, Failures(h), Requests(h)))
  }

  /** A ban was pending at the end of the history and has run out by `now`. */
  ghost predicate ObservesExpiry(cfg: Config, h: seq<Event>, now: nat)
    decreases |h|, 4
  {
    exists i :: 0 <= i < |h| && Pending(cfg, h, i) && h[i].at + cfg.banDuration <= now
  }

  /** Event i is the last trigger, and nothing since has lifted its ban: no reset, and no
      query at or after its expiry. */
  ghost predicate Pending(cfg: Config, h: seq<Event>, i: nat)
    requires i < |h|
    decreases |h|, 3
  {
    && (forall k :: i < k < |h| ==> !Lifts(h[k], h[i].at + cfg.banDuration))
    && TriggersAt(cfg, h, i)
    && (forall k :: i < k < |h| ==> !TriggersAt(cfg, h, k))
  }

  ghost predicate TriggersAt(cfg: Config, h: seq<Event>, k: nat)
    requires k < |h|
    decreases k + 1, 2
  {
    Triggers(cfg, h[..k + 1])
  }

  predicate Lifts(e: Event, until: nat) {
    e.Reset? || (e.Query? && until <= e.at)
  }

  /** The declarative meaning of "banned at `now`". */
  ghost predicate Banned(cfg: Config, h: seq<Event>, now: nat) {
    exists i :: 0 <= i < |h| && TriggersAt(cfg, h, i)
      && now < h[i].at + cfg.banDuration
      && forall k :: i < k < |h| ==> !h[k].Reset?
  }

  // ---- the machine refines the history ----

  function StateAfter(cfg: Config, h: seq<Event>): EndpointState {
    if h == [] then NEW_STATE else StateStep(cfg, StateAfter(cfg, h[..|h| - 1]), h[|h| - 1])
  }

  lemma TriggersAtPrefix(cfg: Config, h: seq<Event>, e: Event, k: nat)
    requires k < |h|
    ensures TriggersAt(cfg, h + [e], k) == TriggersAt(cfg, h, k)
  {
    assert (h + [e])[..k + 1] == h[..k + 1];
  }

  lemma TriggersAtLast(cfg: Config, h: seq<Event>, e: Event)
    ensures TriggersAt(cfg, h + [e], |h|) == Triggers(cfg, h + [e])
  {
    assert (h + [e])[..|h| + 1] == h + [e];
  }

  lemma PendingStays(cfg: Config, h: seq<Event>, e: Event, i: nat)
    requires i < |h| && Pending(cfg, h, i)
    requires !Lifts(e, h[i].at + cfg.banDuration) && !Triggers(cfg, h + [e])
    ensures Pending(cfg, h + [e], i)
  {
    var h', until := h + [e], h[i].at + cfg.banDuration;
    assert h'[i] == h[i];
    assert TriggersAt(cfg, h', i) by { TriggersAtPrefix(cfg, h, e, i); }
    forall k | i < k < |h'| ensures !Lifts(h'[k], until) {
      assert h'[k] == if k < |h| then h[k] else e;
    }
    forall k | i < k < |h'| ensures !TriggersAt(cfg, h', k) { QuietAt(cfg, h, e, i, k); }
  }

  lemma QuietAt(cfg: Config, h: seq<Event>, e: Event, i: nat, k: nat)
    requires i < k <= |h| && (forall l :: i < l < |h| ==> !TriggersAt(cfg, h, l)) && !Triggers(cfg, h + [e])
    ensures !TriggersAt(cfg, h + [e], k)
  {
    if k < |h| { TriggersAtPrefix(cfg, h, e, k); } else { TriggersAtLast(cfg, h, e); }
  }

  lemma PendingWas(cfg: Config, h: seq<Event>, e: Event, i: nat)
    requires i < |h| && Pending(cfg, h + [e], i)
    ensures Pending(cfg, h, i) && !Lifts(e, h[i].at + cfg.banDuration) && !Triggers(cfg, h + [e])
  {
    var h', until := h + [e], h[i].at + cfg.banDuration;
    assert h'[i] == h[i];
    assert TriggersAt(cfg, h, i) by { TriggersAtPrefix(cfg, h, e, i); }
    forall k | i < k < |h| ensures !Lifts(h[k], until) { assert h'[k] == h[k]; }
    forall k | i < k < |h| ensures !TriggersAt(cfg, h, k) { QuietBefore(cfg, h, e, i, k); }
    assert !Triggers(cfg, h + [e]) by { TriggersAtLast(cfg, h, e); }
    assert h'[|h|] == e;
  }

  lemma QuietBefore(cfg: Config, h: seq<Event>, e: Event, i: nat, k: nat)
    requires i < k < |h| && forall l :: i < l < |h + [e]| ==> !TriggersAt(cfg, h + [e], l)
    ensures !TriggersAt(cfg, h, k)
  {
    TriggersAtPrefix(cfg, h, e, k);
  }

  lemma PendingExtends(cfg: Config, h: seq<Event>, e: Event, i: nat)
    requires i < |h|
    ensures Pending(cfg, h + [e], i) <==>
      Pending(cfg, h, i) && !Lifts(e, h[i].at + cfg.banDuration) && !Triggers(cfg, h + [e])
  {
    if Pending(cfg, h + [e], i) {
      PendingWas(cfg, h, e, i);
    } else if Pending(cfg, h, i) && !Lifts(e, h[i].at + cfg.banDuration) && !Triggers(cfg, h + [e]) {
      PendingStays(cfg, h, e, i);
    }
  }

  lemma PendingUnique(cfg: Config, h: seq<Event>, i: nat, j: nat)
    requires i < |h| && j < |h| && Pending(cfg, h, i) && Pending(cfg, h, j)
    ensures i == j
  {}

  ghost predicate DeadlineMatches(cfg: Config, h: seq<Event>, until: Option<nat>) {
    && (until.Some? ==> exists i :: 0 <= i < |h| && Pending(cfg, h, i) && until.value == h[i].at + cfg.banDuration)
    && (until.None? ==> forall i :: 0 <= i < |h| ==> !Pending(cfg, h, i))
  }

  lemma DeadlineStep(cfg: Config, h: seq<Event>, e: Event, s: EndpointState)
    requires DeadlineMatches(cfg, h, s.bannedUntil)
    requires s.consecutive == Trailing(cfg, h) && s.failures == Failures(h) && s.requests == Requests(h)
    ensures StateStep(cfg, s, e).consecutive == Trailing(cfg, h + [e])
    ensures StateStep(cfg, s, e).failures == Failures(h + [e])
    ensures StateStep(cfg, s, e).requests == Requests(h + [e])
    ensures DeadlineMatches(cfg, h + [e], StateStep(cfg, s, e).bannedUntil)
  {
    var h', s' := h + [e], StateStep(cfg, s, e);
    assert h'[..|h'| - 1] == h;
    if e.Query? { QueryObserves(cfg, h, e.at, s.bannedUntil); }
    assert s'.consecutive == Trailing(cfg, h');
    forall i | 0 <= i < |h| ensures h'[i] == h[i] && (Pending(cfg, h', i) <==>
      Pending(cfg, h, i) && !Lifts(e, h[i].at + cfg.banDuration) && !Triggers(cfg, h')) {
      PendingExtends(cfg, h, e, i);
    }
    assert h'[..|h| + 1] == h';
    assert Pending(cfg, h', |h|) <==> Triggers(cfg, h');
    if Triggers(cfg, h') {
      assert Pending(cfg, h', |h|);
    } else if s.bannedUntil.Some? {
      var i :| 0 <= i < |h| && Pending(cfg, h, i) && s.bannedUntil.value == h[i].at + cfg.banDuration;
      forall j | 0 <= j < |h| && Pending(cfg, h, j) ensures j == i { PendingUnique(cfg, h, i, j); }
      assert Pending(cfg, h', i) <==> !Lifts(e, s.bannedUntil.value);
    }
  }

  lemma QueryObserves(cfg: Config, h: seq<Event>, now: nat, until: Option<nat>)
    requires DeadlineMatches(cfg, h, until)
    ensures ObservesExpiry(cfg, h, now) <==> until.Some? && until.value <= now
  {
    if ObservesExpiry(cfg, h, now) {
      var i :| 0 <= i < |h| && Pending(cfg, h, i) && h[i].at + cfg.banDuration <= now;
      var j :| 0 <= j < |h| && Pending(cfg, h, j) && until.value == h[j].at + cfg.banDuration;
      PendingUnique(cfg, h, i, j);
    }
  }

  /** Counters and deadline of the machine are functions of the history. */
  lemma {:induction false} MachineMatches(cfg: Config, h: seq<Event>)
    ensures var s := StateAfter(cfg, h);
      && s.consecutive == Trailing(cfg, h) && s.failures == Failures(h) && s.requests == Requests(h)
      && s.consecutive <= s.failures <= s.requests <= |h|
      && DeadlineMatches(cfg, h, s.bannedUntil)
  {
    if h != [] {
      var before, e := h[..|h| - 1], h[|h| - 1];
      MachineMatches(cfg, before);
      assert before + [e] == h;
      DeadlineStep(cfg, before, e, StateAfter(cfg, before));
    }
  }

  lemma {:induction false} LastTrigger(cfg: Config, h: seq<Event>, i: nat, n: nat) returns (j: nat)
    requires i < n <= |h| && TriggersAt(cfg, h, i)
    ensures i <= j < n && TriggersAt(cfg, h, j)
    ensures forall k :: j < k < n ==> !TriggersAt(cfg, h, k)
    decreases n
  {
    if i == n - 1 || TriggersAt(cfg, h, n - 1) { j := n - 1; } else { j := LastTrigger(cfg, h, i, n - 1); }
  }

  /** MAIN RESULT: the endpoint is in a ban at `now` exactly when some triggering failure is
      less than the ban duration old and no reset followed it. */
  lemma BanMatchesHistory(cfg: Config, h: seq<Event>, now: nat)
    requires Ordered(h) && (h != [] ==> h[|h| - 1].at <= now)
    ensures InBan(StateAfter(cfg, h), now) <==> Banned(cfg, h, now)
  {
    var s := StateAfter(cfg, h);
    MachineMatches(cfg, h);
    if InBan(s, now) {
      var i :| 0 <= i < |h| && Pending(cfg, h, i) && s.bannedUntil.value == h[i].at + cfg.banDuration;
      forall k | i < k < |h| ensures !h[k].Reset? { assert !Lifts(h[k], h[i].at + cfg.banDuration); }
      assert TriggersAt(cfg, h, i);
    }
    if Banned(cfg, h, now) {
      var i :| 0 <= i < |h| && TriggersAt(cfg, h, i) && now < h[i].at + cfg.banDuration
        && forall k :: i < k < |h| ==> !h[k].Reset?;
      var j := LastTrigger(cfg, h, i, |h|);
      assert forall k :: j < k < |h| ==> !Lifts(h[k], h[j].at + cfg.banDuration);
      assert Pending(cfg, h, j);
      var p :| 0 <= p < |h| && Pending(cfg, h, p) && s.bannedUntil.value == h[p].at + cfg.banDuration;
      PendingUnique(cfg, h, j, p);
    }
  }

  lemma Snoc(cfg: Config, h: seq<Event>, e: Event)
    ensures StateAfter(cfg, h + [e]) == StateStep(cfg, StateAfter(cfg, h), e)
  {
    assert (h + [e])[..|h|] == h;
  }

  lemma FailureTriggers(cfg: Config, h: seq<Event>, code: nat, now: nat)
    ensures var s := StateAfter(cfg, h);
      Triggers(cfg, h + [Failure(now, code)]) <==>
      s.consecutive + 1 >= cfg.maxFailures || RateExceeded(cfg, s.failures + 1, s.requests + 1)
  {
    MachineMatches(cfg, h);
    DeadlineStep(cfg, h, Failure(now, code), StateAfter(cfg, h));
  }

  /** Asking matters: after a query that saw a ban expire the next failure counts as the
      first, whereas without that query it counts on top of all the failures before. */
  lemma QueryForgives(cfg: Config, h: seq<Event>, asked: nat, at: nat, code: nat)
    requires ObservesExpiry(cfg, h, asked)
    ensures var rate := RateExceeded(cfg, Failures(h) + 1, Requests(h) + 1);
      && (Triggers(cfg, h + [Query(asked)] + [Failure(at, code)]) <==> 1 >= cfg.maxFailures || rate)
      && (Triggers(cfg, h + [Failure(at, code)]) <==> Trailing(cfg, h) + 1 >= cfg.maxFailures || rate)
  {
    TriggersUnasked(cfg, h, at, code);
    TriggersAsked(cfg, h, asked, at, code);
  }

  lemma MachineCounts(cfg: Config, h: seq<Event>)
    ensures var s := StateAfter(cfg, h);
      s.consecutive == Trailing(cfg, h) && s.failures == Failures(h) && s.requests == Requests(h) && s.failures <= s.requests
  {
    MachineMatches(cfg, h);
  }

  lemma TriggersUnasked(cfg: Config, h: seq<Event>, at: nat, code: nat)
    ensures Triggers(cfg, h + [Failure(at, code)]) <==>
      Trailing(cfg, h) + 1 >= cfg.maxFailures || RateExceeded(cfg, Failures(h) + 1, Requests(h) + 1)
  {
    MachineCounts(cfg, h);
    FailureTriggers(cfg, h, code, at);
  }

  lemma TriggersAsked(cfg: Config, h: seq<Event>, asked: nat, at: nat, code: nat)
    requires ObservesExpiry(cfg, h, asked)
    ensures Triggers(cfg, h + [Query(asked)] + [Failure(at, code)]) <==>
      1 >= cfg.maxFailures || RateExceeded(cfg, Failures(h) + 1, Requests(h) + 1)
  {
    var s := StateAfter(cfg, h);
    MachineCounts(cfg, h);
    assert s.bannedUntil.Some? && s.bannedUntil.value <= asked by {
      MachineMatches(cfg, h);
      QueryObserves(cfg, h, asked, s.bannedUntil);
    }
    assert StateAfter(cfg, h + [Query(asked)]) == AfterQuery(s, asked) by { Snoc(cfg, h, Query(asked)); }
    FailureTriggers(cfg, h + [Query(asked)], code, at);
  }

  function LastCode(h: seq<Event>): nat {
    if h == [] then 0 else if h[|h| - 1].Failure? then h[|h| - 1].code else LastCode(h[..|h| - 1])
  }

  lemma {:induction false} CodeMatches(cfg: Config, h: seq<Event>)
    ensures StateAfter(cfg, h).lastCode == LastCode(h)
  {
    if h != [] { CodeMatches(cfg, h[..|h| - 1]); }
  }

  // ---- the history in numbers ----

  lemma {:induction false} FailuresAre(h: seq<Event>)
    ensures Failures(h) == |set k | 0 <= k < |h| && h[k].Failure?|
  {
    if h != [] {
      var g, n := h[..|h| - 1], |h| - 1;
      FailuresAre(g);
      assert (set k | 0 <= k < |h| && h[k].Failure?) == (set k | 0 <= k < |g| && g[k].Failure?) + if h[n].Failure? then {n} else {};
    }
  }

  lemma {:induction false} RequestsAre(h: seq<Event>)
    ensures Requests(h) == |set k | 0 <= k < |h| && (h[k].Failure? || h[k].Success?)|
  {
    if h != [] {
      var g, n := h[..|h| - 1], |h| - 1;
      RequestsAre(g);
      assert (set k | 0 <= k < |h| && (h[k].Failure? || h[k].Success?)) ==
        (set k | 0 <= k < |g| && (g[k].Failure? || g[k].Success?)) + if h[n].Failure? || h[n].Success? then {n} else {};
    }
  }

  /** Event k ends a streak of failures: a success, a reset, or a query that sees a ban run out. */
  ghost predicate Breaks(cfg: Config, h: seq<Event>, k: nat)
    requires k < |h|
  {
    h[k].Success? || h[k].Reset? || (h[k].Query? && ObservesExpiry(cfg, h[..k], h[k].at))
  }

  /** The trailing failures are the failures since the last such event. */
  lemma {:induction false} TrailingAre(cfg: Config, h: seq<Event>, m: nat)
    requires m <= |h| && (m > 0 ==> Breaks(cfg, h, m - 1)) && forall k :: m <= k < |h| ==> !Breaks(cfg, h, k)
    ensures Trailing(cfg, h) == |set k | m <= k < |h| && h[k].Failure?|
  {
    var now := set k | m <= k < |h| && h[k].Failure?;
    if m == |h| {
      assert now == {};
      if m > 0 { assert h[..m - 1] == h[..|h| - 1]; }
    } else {
      var g, n := h[..|h| - 1], |h| - 1;
      forall k | 0 <= k < |g| ensures Breaks(cfg, g, k) == Breaks(cfg, h, k) { assert g[..k] == h[..k]; }
      assert !Breaks(cfg, h, n);
      TrailingAre(cfg, g, m);
      assert now == (set k | m <= k < |g| && g[k].Failure?) + if h[n].Failure? then {n} else {};
    }
  }

  lemma OverThreshold(f: real, r: real, t: real)
    requires r > 0.0
    ensures f / r > t <==> f > t * r
  {
    var q := f / r;
    assert q * r == f;
    if q > t { assert q * r > t * r; } else { assert q * r <= t * r; }
  }

  /** A failure triggers exactly when it completes a streak of maxFailures, or is at least the
      tenth request and lifts the share of failures above the threshold. */
  lemma TriggersInNumbers(cfg: Config, h: seq<Event>, code: nat, now: nat)
    ensures Triggers(cfg, h + [Failure(now, code)]) <==>
      || Trailing(cfg, h) + 1 >= cfg.maxFailures
      || (Requests(h) + 1 >= 10 && (Failures(h) + 1) as real > cfg.threshold * (Requests(h) + 1) as real)
  {
    var f, r := Failures(h) + 1, Requests(h) + 1;
    assert Triggers(cfg, h + [Failure(now, code)]) <==> Trailing(cfg, h) + 1 >= cfg.maxFailures || RateExceeded(cfg, f, r) by {
      TriggersUnasked(cfg, h, now, code);
    }
    assert RateExceeded(cfg, f, r) <==> r >= 10 && f as real > cfg.threshold * r as real by { RateInNumbers(cfg, f, r); }
  }

  lemma RateInNumbers(cfg: Config, f: nat, r: nat)
    ensures RateExceeded(cfg, f, r) <==> r >= 10 && f as real > cfg.threshold * r as real
  {
    if r > 0 { OverThreshold(f as real, r as real, cfg.threshold); }
  }

  // ---- the reported reason ----

  /** Triggers in terms of the machine. */
  lemma TriggersByMachine(cfg: Config, h: seq<Event>)
    ensures Triggers(cfg, h) <==>
      && h != [] && h[|h| - 1].Failure?
      && var s := StateAfter(cfg, h);
         s.consecutive >= cfg.maxFailures || RateExceeded(cfg, s.failures, s.requests)
  {
    MachineCounts(cfg, h);
  }

  /** Event j is the last trigger. */
  ghost predicate LastTriggerAt(cfg: Config, h: seq<Event>, j: nat)
    requires j < |h|
  {
    TriggersAt(cfg, h, j) && forall k :: j < k < |h| ==> !TriggersAt(cfg, h, k)
  }

  lemma RateGrows(cfg: Config, f: nat, r: nat)
    requires f <= r && RateExceeded(cfg, f, r)
    ensures RateExceeded(cfg, f + 1, r + 1)
  {
    var t := cfg.threshold;
    OverThreshold(f as real, r as real, t);
    OverThreshold((f + 1) as real, (r + 1) as real, t);
    assert t * (r + 1) as real == t * r as real + t;
    AboveOne(t, r as real);
  }

  lemma AboveOne(t: real, r: real)
    requires r > 0.0
    ensures t > 1.0 ==> t * r > r
  {}

  /** Another failure while the last trigger's counts stand triggers again. */
  lemma NextTriggers(cfg: Config, h: seq<Event>, e: Event)
    requires e.Failure?
    requires var s := StateAfter(cfg, h);
      s.consecutive >= cfg.maxFailures || RateExceeded(cfg, s.failures, s.requests)
    ensures Triggers(cfg, h + [e])
  {
    MachineCounts(cfg, h);
    var s := StateAfter(cfg, h);
    if RateExceeded(cfg, s.failures, s.requests) { RateGrows(cfg, s.failures, s.requests); }
    FailureTriggers(cfg, h, e.code, e.at);
  }

  /** While the ban of a trigger runs, only queries follow it unless a success or a reset
      does, and they leave the state alone. */
  lemma {:induction false} OnlyQueries(cfg: Config, h: seq<Event>, j: nat, m: nat)
    requires j < m <= |h| && LastTriggerAt(cfg, h, j)
    requires forall k :: j < k < m ==> !h[k].Success? && !h[k].Reset? && h[k].at < h[j].at + cfg.banDuration
    ensures StateAfter(cfg, h[..m]) == StateAfter(cfg, h[..j + 1])
    ensures forall k :: j < k < m ==> h[k].Query?
  {
    if m > j + 1 {
      OnlyQueries(cfg, h, j, m - 1);
      var before, e := h[..m - 1], h[m - 1];
      assert h[..m] == before + [e];
      Snoc(cfg, before, e);
      TriggerState(cfg, h, j);
      if e.Failure? {
        NextTriggers(cfg, before, e);
        assert TriggersAt(cfg, h, m - 1);
      }
    }
  }

  /** The state a trigger leaves. */
  lemma TriggerState(cfg: Config, h: seq<Event>, j: nat)
    requires j < |h| && TriggersAt(cfg, h, j)
    ensures h[j].Failure?
    ensures var s := StateAfter(cfg, h[..j + 1]);
      && (s.consecutive >= cfg.maxFailures || RateExceeded(cfg, s.failures, s.requests))
      && s.bannedUntil == Some(h[j].at + cfg.banDuration)
  {
    var before := h[..j];
    TriggersByMachine(cfg, h[..j + 1]);
    assert h[..j + 1] == before + [h[j]];
    Snoc(cfg, before, h[j]);
  }

  lemma {:induction false} LastCodeAt(h: seq<Event>, j: nat)
    requires j < |h| && h[j].Failure? && forall k :: j < k < |h| ==> !h[k].Failure?
    ensures LastCode(h) == h[j].code
  {
    if j < |h| - 1 { LastCodeAt(h[..|h| - 1], j); }
  }

  /** Every ban is that of a last trigger, and no reset followed it. */
  lemma BanHasTrigger(cfg: Config, h: seq<Event>, now: nat) returns (j: nat)
    requires Ordered(h) && Banned(cfg, h, now)
    ensures j < |h| && LastTriggerAt(cfg, h, j) && now < h[j].at + cfg.banDuration
    ensures forall k :: j < k < |h| ==> !h[k].Reset?
  {
    var i :| 0 <= i < |h| && TriggersAt(cfg, h, i) && now < h[i].at + cfg.banDuration
      && forall k :: i < k < |h| ==> !h[k].Reset?;
    j := LastTrigger(cfg, h, i, |h|);
  }

  /** While the ban of the last trigger runs and no success or reset followed it, no failure
      followed either, and the reported code is that trigger's. */
  lemma ReasonIsTrigger(cfg: Config, h: seq<Event>, now: nat, j: nat)
    requires Ordered(h) && h != [] && h[|h| - 1].at <= now
    requires j < |h| && LastTriggerAt(cfg, h, j) && now < h[j].at + cfg.banDuration
    requires forall k :: j < k < |h| ==> !h[k].Success? && !h[k].Reset?
    ensures forall k :: j < k < |h| ==> !h[k].Failure?
    ensures h[j].Failure? && LastCode(h) == h[j].code
  {
    OnlyQueries(cfg, h, j, |h|);
    TriggerState(cfg, h, j);
    LastCodeAt(h, j);
  }

  /** The same history with other failure codes. */
  function Relabelled(h: seq<Event>, newCode: nat -> nat): seq<Event> {
    seq(|h|, k requires 0 <= k < |h| => if h[k].Failure? then Failure(h[k].at, newCode(k)) else h[k])
  }

  lemma RelabelledNext(h: seq<Event>, newCode: nat -> nat)
    requires h != []
    ensures Relabelled(h, newCode) == Relabelled(h[..|h| - 1], newCode) + [Relabelled(h, newCode)[|h| - 1]]
  {}

  lemma {:induction false} RelabelledState(cfg: Config, h: seq<Event>, newCode: nat -> nat)
    ensures StateAfter(cfg, Relabelled(h, newCode)) ==
      StateAfter(cfg, h).(lastCode := StateAfter(cfg, Relabelled(h, newCode)).lastCode)
  {
    if h != [] {
      RelabelledState(cfg, h[..|h| - 1], newCode);
      RelabelledNext(h, newCode);
      Snoc(cfg, Relabelled(h[..|h| - 1], newCode), Relabelled(h, newCode)[|h| - 1]);
    }
  }

  /** Codes do not decide bans. */
  lemma RelabelledBans(cfg: Config, h: seq<Event>, newCode: nat -> nat, k: nat)
    requires k < |h|
    ensures TriggersAt(cfg, Relabelled(h, newCode), k) == TriggersAt(cfg, h, k)
  {
    var g := h[..k + 1];
    assert Relabelled(h, newCode)[..k + 1] == Relabelled(g, newCode);
    TriggersByMachine(cfg, g);
    TriggersByMachine(cfg, Relabelled(g, newCode));
    RelabelledState(cfg, g, newCode);
  }

  /** Whatever the failure codes, the reported code is that of the failure at j. */
  ghost predicate ReasonIsAlways(h: seq<Event>, j: nat)
    requires j < |h|
  {
    forall newCode: nat -> nat :: LastCode(Relabelled(h, newCode)) == newCode(j)
  }

  /** MAIN RESULT (exact condition): the reported code is that of a failure, whatever the
      codes, if and only if no failure follows it.  For a trigger whose ban still runs that
      is so unless a success followed (ReasonIsTrigger). */
  lemma ReasonExactly(h: seq<Event>, j: nat)
    requires j < |h| && h[j].Failure?
    ensures ReasonIsAlways(h, j) <==> forall k :: j < k < |h| ==> !h[k].Failure?
  {
    if forall k :: j < k < |h| ==> !h[k].Failure? {
      forall newCode: nat -> nat ensures LastCode(Relabelled(h, newCode)) == newCode(j) { LastCodeAt(Relabelled(h, newCode), j); }
    } else {
      var newCode: nat -> nat := (k: nat) => k;
      var l := LastFailure(h, |h|);
      LastCodeAt(Relabelled(h, newCode), l);
      assert newCode(j) == j && j < l;
    }
  }

  lemma {:induction false} LastFailure(h: seq<Event>, n: nat) returns (l: nat)
    requires n <= |h| && exists k :: 0 <= k < n && h[k].Failure?
    ensures l < n && h[l].Failure? && forall k :: l < k < n ==> !h[k].Failure?
  {
    if h[n - 1].Failure? { l := n - 1; } else { l := LastFailure(h, n - 1); }
  }

  /** A success in between is enough: an endpoint banned by its second 500 is reported with
      the code of a later failure that banned nothing. */
  lemma ReasonMisleads(code: nat)
    ensures var cfg := Config(2, 100, 1.0, []);
      var h := [Failure(0, 500), Failure(1, 500), Success(2), Failure(3, code)];
      && Banned(cfg, h, 3) && LastTriggerAt(cfg, h, 1) && LastCode(h) == code
  {
    var cfg := Config(2, 100, 1.0, []);
    var h := [Failure(0, 500), Failure(1, 500), Success(2), Failure(3, code)];
    assert h[..4] == h;
    var one, two, three := h[..1], h[..2], h[..3];
    assert one == [] + [h[0]] && two == one + [h[1]] && three == two + [h[2]] && h == three + [h[3]];
    Snoc(cfg, [], h[0]);
    Snoc(cfg, one, h[1]);
    Snoc(cfg, two, h[2]);
    Snoc(cfg, three, h[3]);
    TriggersByMachine(cfg, two);
    TriggersByMachine(cfg, three);
    TriggersByMachine(cfg, h);
  }

  // ---- the router's object ----

  predicate MatchesPattern(p: FailPattern, status: nat) {
    match p
    case Range(lo, hi) => lo <= status <= hi
    case Exact(code) => status == code
  }

  predicate IsFailStatus(patterns: seq<FailPattern>, status: nat) {
    exists i :: 0 <= i < |patterns| && MatchesPattern(patterns[i], status)
  }

  datatype Reason = NetworkError | HttpStatus(code: nat)

  /** The stored state of an endpoint is the machine's after its history, all in the past. */
  ghost predicate Tracks(cfg: Config, s: EndpointState, h: seq<Event>, clock: nat) {
    && s == StateAfter(cfg, h)
    && Ordered(h)
    && (h != [] ==> h[|h| - 1].at <= clock)
  }

  lemma TracksNext(cfg: Config, s: EndpointState, h: seq<Event>, clock: nat, e: Event)
    requires Tracks(cfg, s, h, clock) && clock <= e.at
    ensures Tracks(cfg, StateStep(cfg, s, e), h + [e], e.at)
  {
    Snoc(cfg, h, e);
  }

  ghost predicate TracksAll(cfg: Config, states: map<string, EndpointState>, histories: map<string, seq<Event>>, clock: nat) {
    && states.Keys == histories.Keys
    && forall k :: k in states ==> Tracks(cfg, states[k], histories[k], clock)
  }

  lemma TracksAllNext(cfg: Config, states: map<string, EndpointState>, histories: map<string, seq<Event>>, clock: nat,
                      key: string, e: Event)
    requires TracksAll(cfg, states, histories, clock) && clock <= e.at
    ensures var s := if key in states then states[key] else NEW_STATE;
      var h := if key in histories then histories[key] else [];
      TracksAll(cfg, states[key := StateStep(cfg, s, e)], histories[key := h + [e]], e.at)
    ensures TracksAll(cfg, states, histories, e.at)
  {
    var s := if key in states then states[key] else NEW_STATE;
    var h := if key in histories then histories[key] else [];
    assert Tracks(cfg, s, h, clock);
    TracksNext(cfg, s, h, clock, e);
    forall k | k in states ensures Tracks(cfg, states[k], histories[k], e.at) {
      assert Tracks(cfg, states[k], histories[k], clock);
    }
  }

  /** Counts a failure and decides on a ban. */
  method CountFailure(cfg: Config, s: EndpointState, code: nat, now: nat) returns (s': EndpointState, banned: bool)
    ensures s' == StateStep(cfg, s, Failure(now, code))
    ensures banned <==> s.consecutive + 1 >= cfg.maxFailures || RateExceeded(cfg, s.failures + 1, s.requests + 1)
  {
    s' := s.(requests := s.requests + 1, failures := s.failures + 1,
                 consecutive := s.consecutive + 1, lastCode := code);
    if s'.consecutive >= cfg.maxFailures {
      s' := s'.(bannedUntil := Some(now + cfg.banDuration));
      banned := true;
    } else if RateExceeded(cfg, s'.failures, s'.requests) {
      s' := s'.(bannedUntil := Some(now + cfg.banDuration));
      banned := true;
    } else {
      banned := false;
    }
  }

  class Fail2ban {
    const cfg: Config
    var states: map<string, EndpointState>
    ghost var histories: map<string, seq<Event>>
    ghost var clock: nat

    ghost predicate Valid()
      reads this
    {
      TracksAll(cfg, states, histories, clock)
    }

    ghost function History(key: string): seq<Event>
      reads this
    {
      if key in histories then histories[key] else []
    }

    constructor (cfg: Config)
      ensures Valid() && this.cfg == cfg && histories == map[]
    {
      this.cfg := cfg;
      states, histories, clock := map[], map[], 0;
    }

    /** The state of an endpoint, created on first use. */
    function Ensure(key: string): EndpointState
      reads this
    {
      if key in states then states[key] else NEW_STATE
    }

    /** The read that also writes: an expired ban is cleared. */
    method IsBanned(key: string, now: nat) returns (banned: bool)
      requires Valid() && clock <= now
      modifies this
      ensures Valid() && clock == now
      ensures banned <==> Banned(cfg, old(History(key)), now)
      ensures histories == if key in old(histories)
        then old(histories)[key := old(histories)[key] + [Query(now)]] else old(histories)
    {
      banned := false;
      BanMatchesHistory(cfg, History(key), now);
      TracksAllNext(cfg, states, histories, clock, key, Query(now));
      if key in states {
        var s := states[key];
        if s.bannedUntil.Some? {
          if now < s.bannedUntil.value {
            banned := true;
          } else {
            states := states[key := s.(consecutive := 0, bannedUntil := None)];
          }
        }
        histories := histories[key := histories[key] + [Query(now)]];
      }
      clock := now;
    }

    method RecordSuccess(key: string, now: nat)
      requires Valid() && clock <= now
      modifies this
      ensures Valid() && clock == now
      ensures histories == old(histories)[key := old(History(key)) + [Success(now)]]
    {
      var s := Ensure(key);
      TracksAllNext(cfg, states, histories, clock, key, Success(now));
      var s' := s.(requests := s.requests + 1, consecutive := 0);
      assert s' == StateStep(cfg, s, Success(now));
      states := states[key := s'];
      histories := histories[key := History(key) + [Success(now)]];
      clock := now;
    }

    /** Answers whether this failure banned the endpoint. */
    method RecordFailureWithCode(key: string, code: nat, now: nat) returns (banned: bool)
      requires Valid() && clock <= now
      modifies this
      ensures Valid() && clock == now
      ensures histories == old(histories)[key := old(History(key)) + [Failure(now, code)]]
      ensures banned <==> Triggers(cfg, old(History(key)) + [Failure(now, code)])
    {
      var s := Ensure(key);
      ghost var h := History(key);
      assert Tracks(cfg, s, h, clock);
      FailureTriggers(cfg, h, code, now);
      var s';
      s', banned := CountFailure(cfg, s, code, now);
      TracksAllNext(cfg, states, histories, clock, key, Failure(now, code));
      states := states[key := s'];
      histories := histories[key := History(key) + [Failure(now, code)]];
      clock := now;
    }

    method Reset(key: string, now: nat)
      requires Valid() && clock <= now
      modifies this
      ensures Valid() && clock == now
      ensures histories == if key in old(histories)
        then old(histories)[key := old(histories)[key] + [Event.Reset(now)]] else old(histories)
    {
      TracksAllNext(cfg, states, histories, clock, key, Event.Reset(now));
      if key in states {
        states := states[key := states[key].(consecutive := 0, bannedUntil := None)];
        histories := histories[key := histories[key] + [Event.Reset(now)]];
      }
      clock := now;
    }

    method BannedCount(now: nat) returns (n: nat)
      requires Valid() && clock <= now
      ensures n == |set k | k in histories && Banned(cfg, histories[k], now)|
    {
      forall k | k in states ensures InBan(states[k], now) <==> Banned(cfg, histories[k], now) {
        BanMatchesHistory(cfg, histories[k], now);
      }
      var banned := set k | k in states && InBan(states[k], now);
      assert banned == set k | k in histories && Banned(cfg, histories[k], now);
      n := |banned|;
    }

    /** The code of the last failure, which need not be the one that triggered the ban. */
    method BanReason(key: string, now: nat) returns (reason: Option<Reason>)
      requires Valid() && clock <= now
      ensures reason.Some? <==> Banned(cfg, History(key), now)
      ensures reason.Some? ==>
        reason.value == if LastCode(History(key)) == 0 then NetworkError else HttpStatus(LastCode(History(key)))
    {
      BanMatchesHistory(cfg, History(key), now);
      if key !in states || !InBan(states[key], now) {
        return None;
      }
      CodeMatches(cfg, histories[key]);
      var code := states[key].lastCode;
      reason := Some(if code == 0 then NetworkError else HttpStatus(code));
    }
  }
}
