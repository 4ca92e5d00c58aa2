/** The retry loop of proxy_handler (src/proxy/handler.rs) over select_available.

    Everything the loop shares with other requests - the round-robin counter, the limiters,
    the upstreams - is an arbitrary oracle (`World`), so the results hold under any
    interleaving.  The handler's and the balancer's names for an endpoint are parameters. */
module RetryLoop {
  import opened Basics
  import opened Endpoints
  import opened Balancer
  import Breaker

  datatype Outcome = TransportError | Response(status: nat, usage: nat)

  /** What stays fixed during one request. */
  datatype Setup = Setup(
    endpoints: seq<Endpoint>, handlerName: Endpoint -> string, balancerName: Endpoint -> string,
    retryOnFailure: bool, isStream: bool, patterns: seq<Breaker.FailPattern>, banned: set<string>)

  /** Answers from outside, by round of the loop; `counter` is what the round's call of
      select_available reads from the shared round-robin counter. */
  datatype World = World(counter: nat -> nat, syncAllows: nat -> bool, localAllows: nat -> bool, outcome: nat -> Outcome)

  /** What the loop does to endpoint i. */
  datatype Event = Refused(i: nat) | Reserved(i: nat) | Contacted(i: nat, outcome: Outcome)

  /** The loop's variables; `round` also counts its calls of select_available. */
  datatype Loop = Loop(current: nat, tried: set<string>, round: nat, lastError: Option<Outcome>, log: seq<Event>)

  datatype Exit =
    | Answered(i: nat, status: nat, usage: nat)
    | StreamBroken(i: nat)
    | BadGateway(i: nat)
    | LimitExhausted(i: nat)
    | AllFailed(last: Option<Outcome>)

  datatype Phase = Running(loop: Loop) | Ended(exit: Exit, loop: Loop)

  function NameAt(setup: Setup, i: nat): string
    requires i < |setup.endpoints|
  {
    setup.handlerName(setup.endpoints[i])
  }

  function Select(setup: Setup, world: World, tried: set<string>, round: nat): Option<nat>
    requires setup.endpoints != []
  {
    Pick(OpenSlots(setup.endpoints, setup.balancerName, setup.banned, tried),
         world.counter(round) % |setup.endpoints|)
  }

  /** Marks the current endpoint as tried and moves on, or ends if nothing is left. */
  function MoveOn(setup: Setup, world: World, s: Loop, error: Option<Outcome>, otherwise: Exit): Phase
    requires s.current < |setup.endpoints|
  {
    var tried := s.tried + {NameAt(setup, s.current)};
    var s' := s.(tried := tried, round := s.round + 1,
                 lastError := if error.Some? then error else s.lastError);
    match Select(setup, world, tried, s.round)
    case Some(next) => Running(s'.(current := next))
    case None => Ended(otherwise, s')
  }

  predicate Limited(ep: Endpoint, world: World, round: nat) {
    || (ep.rpm > 0 && !world.syncAllows(round))
    || ((ep.rpm > 0 || ep.tpm > 0) && !world.localAllows(round))
  }

  predicate Final(setup: Setup, status: nat) {
    status < 400 || !(setup.retryOnFailure && Breaker.IsFailStatus(setup.patterns, status))
  }

  /** What one round does: a refused endpoint is skipped; otherwise its token budget, if it
      has one, is charged one token and the endpoint is contacted. */
  function RoundEvents(setup: Setup, world: World, s: Loop): seq<Event>
    requires s.current < |setup.endpoints|
  {
    var i, ep := s.current, setup.endpoints[s.current];
    if Limited(ep, world, s.round) then [Refused(i)]
    else if ep.tpm > 0 then [Reserved(i), Contacted(i, world.outcome(s.round))]
    else [Contacted(i, world.outcome(s.round))]
  }

  /** One round of the loop. */
  function Round(setup: Setup, world: World, s: Loop): Phase
    requires s.current < |setup.endpoints|
  {
    var i, outcome := s.current, world.outcome(s.round);
    var s' := s.(log := s.log + RoundEvents(setup, world, s));
    if Limited(setup.endpoints[i], world, s.round) then
      MoveOn(setup, world, s', None, LimitExhausted(i))
    else if outcome.TransportError? then
      if setup.isStream then Ended(StreamBroken(i), s')
      else if setup.retryOnFailure then MoveOn(setup, world, s', Some(outcome), AllFailed(Some(outcome)))
      else Ended(BadGateway(i), s')
    else
      if Final(setup, outcome.status) then Ended(Answered(i, outcome.status, outcome.usage), s')
      else MoveOn(setup, world, s', Some(outcome), AllFailed(Some(outcome)))
  }

  predicate WellPlaced(setup: Setup, p: Phase) {
    p.Running? ==> p.loop.current < |setup.endpoints|
  }

  /** One more round, unless the loop has ended. */
  function Again(setup: Setup, world: World, p: Phase): (next: Phase)
    requires WellPlaced(setup, p)
    ensures WellPlaced(setup, next)
  {
    if p.Ended? then p else (RoundPlaced(setup, world, p.loop); Round(setup, world, p.loop))
  }

  function Start(initial: nat): Phase {
    Running(Loop(initial, {}, 0, None, []))
  }

  /** The loop after `rounds` rounds; an ended loop stays ended. */
  function Rounds(setup: Setup, world: World, initial: nat, rounds: nat): (p: Phase)
    requires initial < |setup.endpoints|
    ensures WellPlaced(setup, p)
  {
    if rounds == 0 then Start(initial) else Again(setup, world, Rounds(setup, world, initial, rounds - 1))
  }

  lemma SelectOpen(setup: Setup, world: World, tried: set<string>, round: nat)
    requires setup.endpoints != []
    ensures var next := Select(setup, world, tried, round);
      && (next.Some? ==>
           && next.value < |setup.endpoints|
           && setup.balancerName(setup.endpoints[next.value]) !in setup.banned + tried)
      && (next.None? ==> forall i :: 0 <= i < |setup.endpoints| ==>
           setup.balancerName(setup.endpoints[i]) in setup.banned + tried)
  {
    var open := OpenSlots(setup.endpoints, setup.balancerName, setup.banned, tried);
    PickFailsExactly(open, world.counter(round) % |setup.endpoints|);
    forall i | 0 <= i < |setup.endpoints| && !open[i]
      ensures setup.balancerName(setup.endpoints[i]) in setup.banned + tried {}
  }

  lemma RoundPlaced(setup: Setup, world: World, s: Loop)
    requires s.current < |setup.endpoints|
    ensures WellPlaced(setup, Round(setup, world, s))
  {
    SelectOpen(setup, world, s.tried + {NameAt(setup, s.current)}, s.round);
  }

  // ---- the hypothesis ----

  /** Handler and balancer call every endpoint by the same name. */
  ghost predicate NamesAgree(setup: Setup) {
    forall i :: 0 <= i < |setup.endpoints| ==>
      setup.handlerName(setup.endpoints[i]) == setup.balancerName(setup.endpoints[i])
  }

  // ---- what every round keeps ----

  function Visited(log: seq<Event>): seq<nat> {
    if log == [] then [] else
      Visited(log[..|log| - 1]) + (if log[|log| - 1].Reserved? then [] else [log[|log| - 1].i])
  }

  /** Endpoints with distinct names outside the ban snapshot. */
  ghost predicate SafeVisits(setup: Setup, v: seq<nat>) {
    && (forall k :: 0 <= k < |v| ==> v[k] < |setup.endpoints| && NameAt(setup, v[k]) !in setup.banned)
    && (forall j, k :: 0 <= j < k < |v| ==> NameAt(setup, v[j]) != NameAt(setup, v[k]))
  }

  /** The endpoints visited, in order, have distinct names outside the ban snapshot. */
  ghost predicate Safe(setup: Setup, log: seq<Event>) {
    SafeVisits(setup, Visited(log))
  }

  ghost predicate IsVisited(setup: Setup, v: seq<nat>, name: string) {
    exists k :: 0 <= k < |v| && v[k] < |setup.endpoints| && NameAt(setup, v[k]) == name
  }

  /** `tried` holds exactly the names of the endpoints visited so far. */
  ghost predicate TriedIs(setup: Setup, tried: set<string>, v: seq<nat>) {
    forall name :: name in tried <==> IsVisited(setup, v, name)
  }

  ghost predicate Good(setup: Setup, p: Phase) {
    && Safe(setup, p.loop.log)
    && (p.Running? ==>
        && p.loop.current < |setup.endpoints|
        && NameAt(setup, p.loop.current) !in setup.banned + p.loop.tried
        && TriedIs(setup, p.loop.tried, Visited(p.loop.log)))
    && (p.Ended? && (p.exit.LimitExhausted? || p.exit.AllFailed?) ==>
        && TriedIs(setup, p.loop.tried, Visited(p.loop.log))
        && forall i :: 0 <= i < |setup.endpoints| ==> NameAt(setup, i) in setup.banned + p.loop.tried)
  }

  /** Endpoints the loop may still visit. */
  ghost function Unexplored(setup: Setup, tried: set<string>): set<nat> {
    set i | 0 <= i < |setup.endpoints| && NameAt(setup, i) !in setup.banned + tried
  }

  lemma VisitedNext(log: seq<Event>, e: Event)
    ensures Visited(log + [e]) == Visited(log) + (if e.Reserved? then [] else [e.i])
  {
    assert (log + [e])[..|log|] == log;
  }

  lemma VisitedLater(setup: Setup, v: seq<nat>, i: nat, name: string)
    requires i < |setup.endpoints|
    ensures IsVisited(setup, v + [i], name) <==> IsVisited(setup, v, name) || NameAt(setup, i) == name
  {
    var v' := v + [i];
    assert v'[|v|] == i;
    if k :| 0 <= k < |v| && v[k] < |setup.endpoints| && NameAt(setup, v[k]) == name {
      assert v'[k] == v[k];
    }
  }

  lemma SafeNext(setup: Setup, v: seq<nat>, i: nat)
    requires SafeVisits(setup, v)
    requires i < |setup.endpoints| && NameAt(setup, i) !in setup.banned && !IsVisited(setup, v, NameAt(setup, i))
    ensures SafeVisits(setup, v + [i])
  {
    forall k | 0 <= k < |v| ensures NameAt(setup, v[k]) != NameAt(setup, i) {}
  }

  lemma TriedNext(setup: Setup, tried: set<string>, v: seq<nat>, i: nat)
    requires TriedIs(setup, tried, v) && i < |setup.endpoints|
    ensures TriedIs(setup, tried + {NameAt(setup, i)}, v + [i])
  {
    forall name ensures name in tried + {NameAt(setup, i)} <==> IsVisited(setup, v + [i], name) {
      VisitedLater(setup, v, i, name);
    }
  }

  lemma VisitSafe(setup: Setup, s: Loop, log: seq<Event>)
    requires Good(setup, Running(s)) && Visited(log) == Visited(s.log) + [s.current]
    ensures Safe(setup, log)
    ensures TriedIs(setup, s.tried + {NameAt(setup, s.current)}, Visited(log))
  {
    SafeNext(setup, Visited(s.log), s.current);
    TriedNext(setup, s.tried, Visited(s.log), s.current);
  }

  lemma MoveOnGood(setup: Setup, world: World, s: Loop, s': Loop, error: Option<Outcome>, otherwise: Exit)
    requires NamesAgree(setup) && Good(setup, Running(s))
    requires s' == s.(log := s'.log) && Visited(s'.log) == Visited(s.log) + [s.current]
    ensures Good(setup, MoveOn(setup, world, s', error, otherwise))
    ensures var p := MoveOn(setup, world, s', error, otherwise);
      p.Running? ==> |Unexplored(setup, p.loop.tried)| < |Unexplored(setup, s.tried)|
  {
    var tried := s.tried + {NameAt(setup, s.current)};
    VisitSafe(setup, s, s'.log);
    SelectOpen(setup, world, tried, s.round);
    assert Unexplored(setup, tried) < Unexplored(setup, s.tried) by {
      assert s.current in Unexplored(setup, s.tried) && s.current !in Unexplored(setup, tried);
    }
    SubsetSmaller(Unexplored(setup, tried), Unexplored(setup, s.tried));
  }

  lemma {:induction false} SubsetSmaller<T>(a: set<T>, b: set<T>)
    requires a < b
    ensures |a| < |b|
  {
    var x :| x in b && x !in a;
    SubsetAtMost(a, b - {x});
  }

  lemma {:induction false} SubsetAtMost<T>(a: set<T>, b: set<T>)
    requires a <= b
    ensures |a| <= |b|
  {
    if a != {} {
      var x :| x in a;
      SubsetAtMost(a - {x}, b - {x});
    }
  }

  lemma VisitedOne(log: seq<Event>, e: Event)
    requires !e.Reserved?
    ensures Visited(log + [e]) == Visited(log) + [e.i]
    ensures Visited(log + [Reserved(e.i), e]) == Visited(log) + [e.i]
  {
    VisitedNext(log, e);
    VisitedNext(log, Reserved(e.i));
    VisitedNext(log + [Reserved(e.i)], e);
    assert log + [Reserved(e.i), e] == log + [Reserved(e.i)] + [e];
    assert Visited(log) + [] == Visited(log);
  }

  lemma RoundVisits(setup: Setup, world: World, s: Loop)
    requires s.current < |setup.endpoints|
    ensures Visited(s.log + RoundEvents(setup, world, s)) == Visited(s.log) + [s.current]
  {
    VisitedOne(s.log, Refused(s.current));
    VisitedOne(s.log, Contacted(s.current, world.outcome(s.round)));
  }

  lemma RoundLog(setup: Setup, world: World, s: Loop)
    requires s.current < |setup.endpoints|
    ensures Round(setup, world, s).loop.log == s.log + RoundEvents(setup, world, s)
  {}

  /** MAIN RESULT (one round): if the names agree, a round keeps the loop safe and strictly
      shrinks the set of endpoints outside the ban snapshot and the tried set. */
  lemma RoundGood(setup: Setup, world: World, s: Loop)
    requires NamesAgree(setup) && Good(setup, Running(s))
    ensures Good(setup, Round(setup, world, s))
    ensures var p := Round(setup, world, s);
      p.Running? ==> |Unexplored(setup, p.loop.tried)| < |Unexplored(setup, s.tried)|
  {
    RoundLog(setup, world, s);
    RoundVisits(setup, world, s);
    var i, ep, outcome := s.current, setup.endpoints[s.current], world.outcome(s.round);
    var p := Round(setup, world, s);
    var s' := s.(log := p.loop.log);
    if Limited(ep, world, s.round) {
      MoveOnGood(setup, world, s, s', None, LimitExhausted(i));
    } else if outcome.TransportError? && (setup.isStream || !setup.retryOnFailure) {
      VisitSafe(setup, s, s'.log);
    } else if outcome.Response? && Final(setup, outcome.status) {
      VisitSafe(setup, s, s'.log);
    } else {
      MoveOnGood(setup, world, s, s', Some(outcome), AllFailed(Some(outcome)));
    }
  }

  lemma {:induction false} RoundsGood(setup: Setup, world: World, initial: nat, rounds: nat)
    requires NamesAgree(setup)
    requires initial < |setup.endpoints| && NameAt(setup, initial) !in setup.banned
    ensures var p := Rounds(setup, world, initial, rounds);
      && Good(setup, p)
      && (p.Running? ==> rounds + |Unexplored(setup, p.loop.tried)| <= |Unexplored(setup, {})|)
      && (p.Running? ==> |Unexplored(setup, p.loop.tried)| > 0)
  {
    var now := Rounds(setup, world, initial, rounds);
    if rounds > 0 {
      RoundsGood(setup, world, initial, rounds - 1);
      var p := Rounds(setup, world, initial, rounds - 1);
      if p.Running? { RoundGood(setup, world, p.loop); }
    }
    if now.Running? { assert now.loop.current in Unexplored(setup, now.loop.tried); }
  }

  /** MAIN RESULT (whole request): if the names agree then, whatever the world does, the loop
      ends within as many rounds as there are endpoints outside the ban snapshot; it never
      visits a banned endpoint and no name twice; and it gives up only when the name of every
      endpoint was banned or visited (AlwaysExhaustiveExactly: when that is every endpoint). */
  lemma RetryLoopCorrect(setup: Setup, world: World, initial: nat)
    requires NamesAgree(setup)
    requires initial < |setup.endpoints| && NameAt(setup, initial) !in setup.banned
    ensures var p := Rounds(setup, world, initial, |Unexplored(setup, {})|);
      && p.Ended?
      && Safe(setup, p.loop.log)
      && (p.exit.LimitExhausted? || p.exit.AllFailed? ==>
          forall i :: 0 <= i < |setup.endpoints| ==>
            NameAt(setup, i) in setup.banned || IsVisited(setup, Visited(p.loop.log), NameAt(setup, i)))
  {
    RoundsGood(setup, world, initial, |Unexplored(setup, {})|);
  }

  // ---- what the client is told ----

  /** An outcome after which the loop looks for another endpoint. */
  predicate Retryable(setup: Setup, o: Outcome) {
    match o
    case TransportError => !setup.isStream && setup.retryOnFailure
    case Response(status, _) => !Final(setup, status)
  }

  /** The exit is what the last event calls for. */
  predicate Reports(setup: Setup, exit: Exit, last: Event) {
    match exit
    case Answered(i, status, usage) => last == Contacted(i, Response(status, usage)) && Final(setup, status)
    case StreamBroken(i) => last == Contacted(i, TransportError) && setup.isStream
    case BadGateway(i) => last == Contacted(i, TransportError) && !setup.isStream && !setup.retryOnFailure
    case LimitExhausted(i) => last == Refused(i)
    case AllFailed(error) => error.Some? && last.Contacted? && error.value == last.outcome
  }

  /** Every contact but a final one failed retryably, and the exit reports the last event. */
  ghost predicate Explained(setup: Setup, p: Phase) {
    var log := p.loop.log;
    && (forall k :: 0 <= k < |log| && log[k].Contacted? ==>
          Retryable(setup, log[k].outcome) || (k == |log| - 1 && p.Ended? && !p.exit.AllFailed? && !p.exit.LimitExhausted?))
    && (p.Ended? ==> log != [] && Reports(setup, p.exit, log[|log| - 1]))
  }

  lemma RoundExplained(setup: Setup, world: World, s: Loop)
    requires s.current < |setup.endpoints| && Explained(setup, Running(s))
    ensures Explained(setup, Round(setup, world, s))
  {
    var log, events, p := s.log, RoundEvents(setup, world, s), Round(setup, world, s);
    RoundLog(setup, world, s);
    assert p.loop.log == log + events;
    assert p.loop.log[|p.loop.log| - 1] == events[|events| - 1];
    forall k | 0 <= k < |log + events| && (log + events)[k].Contacted?
      ensures Retryable(setup, (log + events)[k].outcome)
        || (k == |log + events| - 1 && p.Ended? && !p.exit.AllFailed? && !p.exit.LimitExhausted?)
    {
      if k >= |log| { assert (log + events)[k] == events[k - |log|]; }
    }
  }

  /** In any world, names agreeing or not: an answer returned to the client is that of the
      last endpoint contacted and final, every earlier contact failed retryably, and an
      all-failed exit carries the last failure. */
  lemma {:induction false} ExitExplained(setup: Setup, world: World, initial: nat, rounds: nat)
    requires initial < |setup.endpoints|
    ensures Explained(setup, Rounds(setup, world, initial, rounds))
  {
    if rounds > 0 {
      ExitExplained(setup, world, initial, rounds - 1);
      var p := Rounds(setup, world, initial, rounds - 1);
      if p.Running? { RoundExplained(setup, world, p.loop); }
    }
  }

  // ---- what decides a round ----

  /** Some limiter that the endpoint has refuses it in this round. */
  predicate DeniedIn(setup: Setup, world: World, i: nat, round: nat) {
    i < |setup.endpoints|
    && (|| (setup.endpoints[i].rpm > 0 && !world.syncAllows(round))
        || ((setup.endpoints[i].rpm > 0 || setup.endpoints[i].tpm > 0) && !world.localAllows(round)))
  }

  /** Every limiter it has allows it. */
  predicate AllowedIn(setup: Setup, world: World, i: nat, round: nat) {
    i < |setup.endpoints|
    && (setup.endpoints[i].rpm > 0 ==> world.syncAllows(round) && world.localAllows(round))
    && (setup.endpoints[i].tpm > 0 ==> world.localAllows(round))
  }

  /** A round refuses its endpoint exactly when one of its limiters does; otherwise it
      contacts it, after reserving a token if it has a token budget. */
  lemma RefusedExactly(setup: Setup, world: World, s: Loop)
    requires s.current < |setup.endpoints|
    ensures var i, log := s.current, Round(setup, world, s).loop.log;
      && (log == s.log + [Refused(i)] <==> DeniedIn(setup, world, i, s.round))
      && (log == s.log + [Contacted(i, world.outcome(s.round))] <==>
          AllowedIn(setup, world, i, s.round) && setup.endpoints[i].tpm == 0)
      && (log == s.log + [Reserved(i), Contacted(i, world.outcome(s.round))] <==>
          AllowedIn(setup, world, i, s.round) && setup.endpoints[i].tpm > 0)
  {
    var i, o := s.current, world.outcome(s.round);
    RoundLog(setup, world, s);
    var r, c, rc := s.log + [Refused(i)], s.log + [Contacted(i, o)], s.log + [Reserved(i), Contacted(i, o)];
    assert r[|s.log|] == Refused(i) && c[|s.log|] == Contacted(i, o) && rc[|s.log|] == Reserved(i);
  }

  /** No pattern matches the status. */
  predicate NotAFailure(patterns: seq<Breaker.FailPattern>, status: nat) {
    forall k :: 0 <= k < |patterns| ==>
      match patterns[k]
      case Range(lo, hi) => status < lo || hi < status
      case Exact(code) => status != code
  }

  lemma FailureExactly(patterns: seq<Breaker.FailPattern>, status: nat)
    ensures Breaker.IsFailStatus(patterns, status) <==> !NotAFailure(patterns, status)
  {
    if k :| 0 <= k < |patterns| && Breaker.MatchesPattern(patterns[k], status) {}
    forall k | 0 <= k < |patterns|
      ensures Breaker.MatchesPattern(patterns[k], status) <==>
        match patterns[k] case Range(lo, hi) => lo <= status <= hi case Exact(code) => status == code {}
  }

  /** A contact ends the loop with its answer exactly when the status is below 400, or retry
      is off, or no pattern matches it; a transport error ends it exactly when the request
      streams or retry is off. */
  lemma ContactEnds(setup: Setup, world: World, s: Loop)
    requires s.current < |setup.endpoints| && AllowedIn(setup, world, s.current, s.round)
    ensures var p := Round(setup, world, s);
      match world.outcome(s.round)
      case Response(status, usage) =>
        p.Ended? && p.exit == Answered(s.current, status, usage) <==>
          status < 400 || !setup.retryOnFailure || NotAFailure(setup.patterns, status)
      case TransportError =>
        && (p.Ended? && p.exit == StreamBroken(s.current) <==> setup.isStream)
        && (p.Ended? && p.exit == BadGateway(s.current) <==> !setup.isStream && !setup.retryOnFailure)
  {
    var o := world.outcome(s.round);
    if o.Response? { FailureExactly(setup.patterns, o.status); }
  }

  /** Where the loop goes next: the endpoint nearest to the counter's slot that is neither
      banned nor tried under the balancer's name. */
  lemma NextIsNearest(setup: Setup, world: World, s: Loop)
    requires s.current < |setup.endpoints|
    ensures var p := Round(setup, world, s);
      p.Running? ==>
        && p.loop.tried == s.tried + {setup.handlerName(setup.endpoints[s.current])}
        && p.loop.round == s.round + 1
        && IsNearest(setup.endpoints, setup.balancerName, setup.banned + p.loop.tried,
                     world.counter(s.round) % |setup.endpoints|, p.loop.current)
  {
    PickNearest(setup.endpoints, setup.balancerName, setup.banned, s.tried + {NameAt(setup, s.current)},
                world.counter(s.round) % |setup.endpoints|);
  }

  /** What the limiters and the upstream said in the round of an event. */
  predicate SaidSo(setup: Setup, world: World, e: Event, round: nat) {
    match e
    case Refused(i) => DeniedIn(setup, world, i, round)
    case Reserved(i) => AllowedIn(setup, world, i, round) && setup.endpoints[i].tpm > 0
    case Contacted(i, outcome) => AllowedIn(setup, world, i, round) && outcome == world.outcome(round)
  }

  ghost predicate SaidEarlier(setup: Setup, world: World, e: Event, rounds: nat) {
    exists r: nat :: r < rounds && SaidSo(setup, world, e, r)
  }

  ghost predicate Justified(setup: Setup, world: World, log: seq<Event>, rounds: nat) {
    forall k :: 0 <= k < |log| ==> SaidEarlier(setup, world, log[k], rounds)
  }

  lemma {:induction false} RoundNumber(setup: Setup, world: World, initial: nat, rounds: nat)
    requires initial < |setup.endpoints| && Rounds(setup, world, initial, rounds).Running?
    ensures Rounds(setup, world, initial, rounds).loop.round == rounds
  {
    if rounds > 0 {
      RoundNumber(setup, world, initial, rounds - 1);
      NextIsNearest(setup, world, Rounds(setup, world, initial, rounds - 1).loop);
    }
  }

  lemma RoundJustified(setup: Setup, world: World, s: Loop, rounds: nat)
    requires s.current < |setup.endpoints| && s.round < rounds && Justified(setup, world, s.log, rounds)
    ensures Justified(setup, world, Round(setup, world, s).loop.log, rounds)
  {
    var log, events := s.log, RoundEvents(setup, world, s);
    RoundLog(setup, world, s);
    forall k | 0 <= k < |events| ensures SaidEarlier(setup, world, events[k], rounds) {
      assert SaidSo(setup, world, events[k], s.round);
    }
    forall k | 0 <= k < |log + events| ensures SaidEarlier(setup, world, (log + events)[k], rounds) {
      assert (log + events)[k] == if k < |log| then log[k] else events[k - |log|];
    }
  }

  lemma JustifiedLater(setup: Setup, world: World, log: seq<Event>, rounds: nat)
    requires Justified(setup, world, log, rounds)
    ensures Justified(setup, world, log, rounds + 1)
  {
    forall k | 0 <= k < |log| ensures SaidEarlier(setup, world, log[k], rounds + 1) {
      assert SaidEarlier(setup, world, log[k], rounds);
    }
  }

  /** MAIN RESULT (limits): along every loop, each endpoint that was contacted was allowed in
      that round by every limiter it has, and each one that was skipped was refused by one. */
  lemma {:induction false} VerdictsRespected(setup: Setup, world: World, initial: nat, rounds: nat)
    requires initial < |setup.endpoints|
    ensures Justified(setup, world, Rounds(setup, world, initial, rounds).loop.log, rounds)
  {
    if rounds > 0 {
      var p := Rounds(setup, world, initial, rounds - 1);
      VerdictsRespected(setup, world, initial, rounds - 1);
      JustifiedLater(setup, world, p.loop.log, rounds - 1);
      if p.Running? {
        RoundNumber(setup, world, initial, rounds - 1);
        RoundJustified(setup, world, p.loop, rounds);
      }
    }
  }

  // ---- without the hypothesis ----

  /** A world in which every counter value is i, nothing is rate-limited, and upstreams fail. */
  ghost predicate Failing(setup: Setup, world: World, i: nat) {
    && i < |setup.endpoints| && setup.banned == {}
    && setup.retryOnFailure && Breaker.IsFailStatus(setup.patterns, 500)
    && (forall k :: world.counter(k) == i && world.syncAllows(k) && world.localAllows(k))
    && (forall k :: world.outcome(k) == Response(500, 0))
  }

  lemma SelectAgain(setup: Setup, world: World, i: nat, tried: set<string>, round: nat)
    requires Failing(setup, world, i) && setup.balancerName(setup.endpoints[i]) !in tried
    ensures Select(setup, world, tried, round) == Some(i)
  {
    var open := OpenSlots(setup.endpoints, setup.balancerName, setup.banned, tried);
    WrapIsMod(i, |open|);
    assert OpenAhead(open, i, 0);
    ScanFinds(open, i, 0, 0);
  }

  lemma FailAgain(setup: Setup, world: World, i: nat, s: Loop)
    requires Failing(setup, world, i) && s.current == i
    requires setup.balancerName(setup.endpoints[i]) !in s.tried + {NameAt(setup, i)}
    ensures var p := Round(setup, world, s);
      && p.Running? && p.loop.current == i
      && p.loop.tried == s.tried + {NameAt(setup, i)}
      && Visited(p.loop.log) == Visited(s.log) + [i]
  {
    RoundLog(setup, world, s);
    RoundVisits(setup, world, s);
    SelectAgain(setup, world, i, s.tried + {NameAt(setup, i)}, s.round);
  }

  /** The loop stands at endpoint i, has tried no other, and has visited it in every round. */
  ghost predicate StuckAt(setup: Setup, p: Phase, i: nat, rounds: nat)
    requires i < |setup.endpoints|
  {
    && p.Running? && p.loop.current == i && p.loop.tried <= {NameAt(setup, i)}
    && |Visited(p.loop.log)| == rounds
    && forall k :: 0 <= k < rounds ==> Visited(p.loop.log)[k] == i
  }

  lemma StuckAgain(setup: Setup, world: World, i: nat, p: Phase, rounds: nat)
    requires Failing(setup, world, i) && StuckAt(setup, p, i, rounds)
    requires setup.handlerName(setup.endpoints[i]) != setup.balancerName(setup.endpoints[i])
    ensures StuckAt(setup, Again(setup, world, p), i, rounds + 1)
  {
    FailAgain(setup, world, i, p.loop);
  }

  /** If the names of one endpoint differ, a failing world makes the loop contact that same
      endpoint in every round, for as many rounds as one likes: it need not end. */
  lemma {:induction false} EndlessRetry(setup: Setup, world: World, i: nat, rounds: nat)
    requires Failing(setup, world, i)
    requires setup.handlerName(setup.endpoints[i]) != setup.balancerName(setup.endpoints[i])
    ensures StuckAt(setup, Rounds(setup, world, i, rounds), i, rounds)
  {
    if rounds > 0 {
      EndlessRetry(setup, world, i, rounds - 1);
      StuckAgain(setup, world, i, Rounds(setup, world, i, rounds - 1), rounds - 1);
    }
  }

  /** The retry guarantee for a model: no request ever visits a banned name or a name twice. */
  ghost predicate AlwaysSafe(endpoints: seq<Endpoint>, handlerName: Endpoint -> string, balancerName: Endpoint -> string) {
    forall retry, stream, patterns, banned, world: World, initial: nat, rounds: nat ::
      var setup := Setup(endpoints, handlerName, balancerName, retry, stream, patterns, banned);
      initial < |endpoints| && handlerName(endpoints[initial]) !in banned ==>
        Safe(setup, Rounds(setup, world, initial, rounds).loop.log)
  }

  /** MAIN RESULT (exact condition): a model's requests are always safe if and only if handler
      and balancer name every one of its endpoints alike. */
  lemma AlwaysSafeExactly(endpoints: seq<Endpoint>, handlerName: Endpoint -> string, balancerName: Endpoint -> string)
    ensures AlwaysSafe(endpoints, handlerName, balancerName) <==>
      forall i :: 0 <= i < |endpoints| ==> handlerName(endpoints[i]) == balancerName(endpoints[i])
  {
    if AlwaysSafe(endpoints, handlerName, balancerName) {
      forall i | 0 <= i < |endpoints| ensures handlerName(endpoints[i]) == balancerName(endpoints[i]) {
        if handlerName(endpoints[i]) != balancerName(endpoints[i]) {
          TwiceContacted(endpoints, handlerName, balancerName, i);
        }
      }
    } else {
      var retry, stream, patterns, banned, world: World, initial: nat, rounds: nat :|
        var setup := Setup(endpoints, handlerName, balancerName, retry, stream, patterns, banned);
        initial < |endpoints| && handlerName(endpoints[initial]) !in banned
        && !Safe(setup, Rounds(setup, world, initial, rounds).loop.log);
      var setup := Setup(endpoints, handlerName, balancerName, retry, stream, patterns, banned);
      if NamesAgree(setup) { RoundsGood(setup, world, initial, rounds); }
    }
  }

  lemma TwiceContacted(endpoints: seq<Endpoint>, handlerName: Endpoint -> string, balancerName: Endpoint -> string, i: nat)
    requires i < |endpoints| && handlerName(endpoints[i]) != balancerName(endpoints[i])
    ensures !AlwaysSafe(endpoints, handlerName, balancerName)
  {
    var setup := FailingSetup(endpoints, handlerName, balancerName);
    var world := World((k: nat) => i, (k: nat) => true, (k: nat) => true, (k: nat) => Response(500, 0));
    NotSafeTwice(setup, world, i);
  }

  lemma FailingSetup(endpoints: seq<Endpoint>, handlerName: Endpoint -> string, balancerName: Endpoint -> string)
    returns (setup: Setup)
    ensures setup == Setup(endpoints, handlerName, balancerName, true, false, setup.patterns, {})
    ensures Breaker.IsFailStatus(setup.patterns, 500)
  {
    var patterns := [Breaker.Range(500, 599)];
    assert Breaker.MatchesPattern(patterns[0], 500);
    setup := Setup(endpoints, handlerName, balancerName, true, false, patterns, {});
  }

  lemma NotSafeTwice(setup: Setup, world: World, i: nat)
    requires Failing(setup, world, i)
    requires setup.handlerName(setup.endpoints[i]) != setup.balancerName(setup.endpoints[i])
    ensures !Safe(setup, Rounds(setup, world, i, 2).loop.log)
  {
    EndlessRetry(setup, world, i, 2);
    var v := Visited(Rounds(setup, world, i, 2).loop.log);
    assert NameAt(setup, v[0]) == NameAt(setup, v[1]);
  }

  /** With the two masks of the source the guarantee holds exactly for models all of whose
      API keys are at most six bytes long. */
  lemma SafeExactlyForShortKeys(endpoints: seq<Endpoint>)
    ensures AlwaysSafe(endpoints, HandlerName, BalancerName) <==>
      forall i :: 0 <= i < |endpoints| ==> |endpoints[i].key| <= 6
  {
    AlwaysSafeExactly(endpoints, HandlerName, BalancerName);
    forall i | 0 <= i < |endpoints|
      ensures HandlerName(endpoints[i]) == BalancerName(endpoints[i]) <==> |endpoints[i].key| <= 6
    {
      NamesAgreeExactly(endpoints[i]);
    }
  }

  // ---- giving up ----

  /** The loop ended because select_available had nothing left. */
  predicate GaveUp(p: Phase) {
    p.Ended? && (p.exit.LimitExhausted? || p.exit.AllFailed?)
  }

  /** Endpoint i itself was visited. */
  ghost predicate VisitedItself(v: seq<nat>, i: nat) {
    exists k :: 0 <= k < |v| && v[k] == i
  }

  ghost predicate LeftNobodyOut(setup: Setup, p: Phase) {
    GaveUp(p) ==> forall i :: 0 <= i < |setup.endpoints| && NameAt(setup, i) !in setup.banned ==>
      VisitedItself(Visited(p.loop.log), i)
  }

  /** Exhaustiveness for a model: a request that gives up has visited every unbanned endpoint. */
  ghost predicate AlwaysExhaustive(endpoints: seq<Endpoint>, handlerName: Endpoint -> string, balancerName: Endpoint -> string) {
    forall retry, stream, patterns, banned, world: World, initial: nat, rounds: nat ::
      var setup := Setup(endpoints, handlerName, balancerName, retry, stream, patterns, banned);
      initial < |endpoints| && handlerName(endpoints[initial]) !in banned ==>
        LeftNobodyOut(setup, Rounds(setup, world, initial, rounds))
  }

  ghost predicate Distinct(endpoints: seq<Endpoint>, name: Endpoint -> string) {
    forall i, j :: 0 <= i < j < |endpoints| ==> name(endpoints[i]) != name(endpoints[j])
  }

  lemma DistinctVisits(setup: Setup, world: World, initial: nat, rounds: nat)
    requires NamesAgree(setup) && Distinct(setup.endpoints, setup.handlerName)
    requires initial < |setup.endpoints| && NameAt(setup, initial) !in setup.banned
    ensures LeftNobodyOut(setup, Rounds(setup, world, initial, rounds))
  {
    var p := Rounds(setup, world, initial, rounds);
    RoundsGood(setup, world, initial, rounds);
    if GaveUp(p) {
      forall i | 0 <= i < |setup.endpoints| && NameAt(setup, i) !in setup.banned
        ensures VisitedItself(Visited(p.loop.log), i)
      {
        NameIsEndpoint(setup, p.loop.tried, Visited(p.loop.log), i);
      }
    }
  }

  lemma NameIsEndpoint(setup: Setup, tried: set<string>, v: seq<nat>, i: nat)
    requires Distinct(setup.endpoints, setup.handlerName) && TriedIs(setup, tried, v)
    requires i < |setup.endpoints| && NameAt(setup, i) in tried
    ensures VisitedItself(v, i)
  {
    assert IsVisited(setup, v, NameAt(setup, i));
    var k :| 0 <= k < |v| && v[k] < |setup.endpoints| && NameAt(setup, v[k]) == NameAt(setup, i);
    assert v[k] == i;
  }

  /** Exactly the endpoints that have another name than endpoint i are banned. */
  ghost predicate OthersBanned(setup: Setup, i: nat)
    requires i < |setup.endpoints|
  {
    forall k :: 0 <= k < |setup.endpoints| ==> (NameAt(setup, k) in setup.banned <==> NameAt(setup, k) != NameAt(setup, i))
  }

  lemma NothingLeft(setup: Setup, world: World, i: nat, tried: set<string>, round: nat)
    requires NamesAgree(setup) && i < |setup.endpoints| && OthersBanned(setup, i) && NameAt(setup, i) in tried
    ensures Select(setup, world, tried, round).None?
  {
    forall k | 0 <= k < |setup.endpoints|
      ensures setup.balancerName(setup.endpoints[k]) in setup.banned + tried
    {
      assert NameAt(setup, k) == setup.balancerName(setup.endpoints[k]);
    }
    SelectOpen(setup, world, tried, round);
  }

  lemma GivesUp(setup: Setup, world: World, i: nat, s: Loop)
    requires NamesAgree(setup) && i < |setup.endpoints| && OthersBanned(setup, i) && s.current == i
    requires setup.retryOnFailure && Breaker.IsFailStatus(setup.patterns, 500)
    requires world.syncAllows(s.round) && world.localAllows(s.round) && world.outcome(s.round) == Response(500, 0)
    ensures GaveUp(Round(setup, world, s))
  {
    NothingLeft(setup, world, i, s.tried + {NameAt(setup, i)}, s.round);
  }

  /** Endpoints i and j share a name: with all others banned and i failing, the loop gives up
      after one round without having contacted j. */
  lemma OneLeftOut(setup: Setup, world: World, i: nat, j: nat)
    requires NamesAgree(setup) && i < |setup.endpoints| && OthersBanned(setup, i)
    requires j < |setup.endpoints| && i != j && NameAt(setup, i) == NameAt(setup, j)
    requires setup.retryOnFailure && Breaker.IsFailStatus(setup.patterns, 500)
    requires world.syncAllows(0) && world.localAllows(0) && world.outcome(0) == Response(500, 0)
    ensures !LeftNobodyOut(setup, Rounds(setup, world, i, 1))
  {
    var s := Loop(i, {}, 0, None, []);
    var p := Round(setup, world, s);
    GivesUp(setup, world, i, s);
    assert Visited(p.loop.log) == [i] by {
      RoundLog(setup, world, s);
      RoundVisits(setup, world, s);
    }
    assert Rounds(setup, world, i, 1) == p by { assert Rounds(setup, world, i, 0) == Running(s); }
    assert !VisitedItself(Visited(p.loop.log), j);
    assert NameAt(setup, j) !in setup.banned;
  }

  /** MAIN RESULT (exact condition): where the names agree, a request that gives up has
      visited every unbanned endpoint if and only if no two endpoints share a name. */
  lemma AlwaysExhaustiveExactly(endpoints: seq<Endpoint>, handlerName: Endpoint -> string, balancerName: Endpoint -> string)
    requires forall i :: 0 <= i < |endpoints| ==> handlerName(endpoints[i]) == balancerName(endpoints[i])
    ensures AlwaysExhaustive(endpoints, handlerName, balancerName) <==> Distinct(endpoints, handlerName)
  {
    if Distinct(endpoints, handlerName) {
      forall retry, stream, patterns, banned, world: World, initial: nat, rounds: nat
        | initial < |endpoints| && handlerName(endpoints[initial]) !in banned
        ensures LeftNobodyOut(Setup(endpoints, handlerName, balancerName, retry, stream, patterns, banned),
          Rounds(Setup(endpoints, handlerName, balancerName, retry, stream, patterns, banned), world, initial, rounds))
      {
        DistinctVisits(Setup(endpoints, handlerName, balancerName, retry, stream, patterns, banned), world, initial, rounds);
      }
    } else {
      var i, j :| 0 <= i < j < |endpoints| && handlerName(endpoints[i]) == handlerName(endpoints[j]);
      NotExhaustive(endpoints, handlerName, balancerName, i, j);
    }
  }

  lemma NotExhaustive(endpoints: seq<Endpoint>, handlerName: Endpoint -> string, balancerName: Endpoint -> string, i: nat, j: nat)
    requires forall i :: 0 <= i < |endpoints| ==> handlerName(endpoints[i]) == balancerName(endpoints[i])
    requires i < j < |endpoints| && handlerName(endpoints[i]) == handlerName(endpoints[j])
    ensures !AlwaysExhaustive(endpoints, handlerName, balancerName)
  {
    var failing := FailingSetup(endpoints, handlerName, balancerName);
    var name := handlerName(endpoints[i]);
    var banned := set k | 0 <= k < |endpoints| && handlerName(endpoints[k]) != name :: handlerName(endpoints[k]);
    var setup := Setup(endpoints, handlerName, balancerName, true, false, failing.patterns, banned);
    var world := World((k: nat) => i, (k: nat) => true, (k: nat) => true, (k: nat) => Response(500, 0));
    forall k | 0 <= k < |endpoints| ensures NameAt(setup, k) in setup.banned <==> NameAt(setup, k) != name {}
    assert OthersBanned(setup, i);
    OneLeftOut(setup, world, i, j);
    assert handlerName(endpoints[i]) !in banned;
  }

  /** With the two masks of the source: requests are always safe and exhaustive exactly for
      models whose keys have at most six bytes and whose URLs are all different - short keys
      all mask to the same text, so two of them at one URL share a name. */
  lemma SafeAndExhaustiveExactly(endpoints: seq<Endpoint>)
    ensures AlwaysSafe(endpoints, HandlerName, BalancerName) && AlwaysExhaustive(endpoints, HandlerName, BalancerName) <==>
      && (forall i :: 0 <= i < |endpoints| ==> |endpoints[i].key| <= 6)
      && (forall i, j :: 0 <= i < j < |endpoints| ==> endpoints[i].url != endpoints[j].url)
  {
    SafeExactlyForShortKeys(endpoints);
    if forall i :: 0 <= i < |endpoints| ==> |endpoints[i].key| <= 6 {
      forall i | 0 <= i < |endpoints| ensures HandlerName(endpoints[i]) == BalancerName(endpoints[i]) {
        NamesAgreeExactly(endpoints[i]);
      }
      AlwaysExhaustiveExactly(endpoints, HandlerName, BalancerName);
      forall i, j | 0 <= i < j < |endpoints|
        ensures HandlerName(endpoints[i]) == HandlerName(endpoints[j]) <==> endpoints[i].url == endpoints[j].url
      {
        ShortNames(endpoints[i], endpoints[j]);
      }
    }
  }

  lemma ShortNames(a: Endpoint, b: Endpoint)
    requires |a.key| <= 6 && |b.key| <= 6
    ensures HandlerName(a) == HandlerName(b) <==> a.url == b.url
  {
    if HandlerName(a) == HandlerName(b) {
      assert HandlerName(a) == a.url + ":***" && HandlerName(b) == b.url + ":***";
      assert |a.url| == |b.url|;
      assert a.url == HandlerName(a)[..|a.url|] && b.url == HandlerName(b)[..|b.url|];
    }
  }
}
