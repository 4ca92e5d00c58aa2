/** One request through proxy_handler (src/proxy/handler.rs): ban snapshot, sticky choice,
    rate limits, retry loop and settlement, with the takes it makes. */
module ProxyHandler {
  import opened Basics
  import opened Endpoints
  import opened Balancer
  import opened RetryLoop
  import opened RequestCharges
  import Breaker

  // ---- the retry loop as the source runs it ----

  lemma {:induction false} EndedStays(setup: Setup, world: World, initial: nat, k: nat, m: nat)
    requires initial < |setup.endpoints| && k <= m && Rounds(setup, world, initial, k).Ended?
    ensures Rounds(setup, world, initial, m) == Rounds(setup, world, initial, k)
  {
    if k < m {
      EndedStays(setup, world, initial, k, m - 1);
      EndedAgain(setup, world, Rounds(setup, world, initial, m - 1));
    }
  }

  lemma EndedAgain(setup: Setup, world: World, p: Phase)
    requires p.Ended?
    ensures Again(setup, world, p) == p
  {}

  /** The body of the loop. */
  method RunRound(setup: Setup, world: World, s: Loop) returns (p: Phase)
    requires s.current < |setup.endpoints|
    ensures p == Round(setup, world, s)
  {
    var current, log, lastError := s.current, s.log, s.lastError;
    var ep := setup.endpoints[current];
    var otherwise: Exit;
    var refused := false;
    if ep.rpm > 0 && !world.syncAllows(s.round) {
      refused := true;
    } else if ep.rpm > 0 || ep.tpm > 0 {
      refused := !world.localAllows(s.round);
    }
    if refused {
      log := log + [Refused(current)];
      otherwise := LimitExhausted(current);
    } else {
      var outcome := world.outcome(s.round);
      log := log + (if ep.tpm > 0 then [Reserved(current), Contacted(current, outcome)] else [Contacted(current, outcome)]);
      if outcome.TransportError? {
        if setup.isStream {
          return Ended(StreamBroken(current), s.(log := log));
        }
        if !setup.retryOnFailure {
          return Ended(BadGateway(current), s.(log := log));
        }
      } else if outcome.status < 400 || !(setup.retryOnFailure && Breaker.IsFailStatus(setup.patterns, outcome.status)) {
        return Ended(Answered(current, outcome.status, outcome.usage), s.(log := log));
      }
      lastError := Some(outcome);
      otherwise := AllFailed(lastError);
    }
    var tried := s.tried + {setup.handlerName(ep)};
    var next := ScanRing(setup.endpoints, setup.balancerName, setup.banned, tried,
                         world.counter(s.round) % |setup.endpoints|);
    var s' := Loop(current, tried, s.round + 1, lastError, log);
    if next.None? {
      return Ended(otherwise, s');
    }
    p := Running(s'.(current := next.value));
  }

  /** The loop of the source, for every request whose loop ends: in round `n` or before. */
  method RunRetryLoop(setup: Setup, world: World, initial: nat, ghost n: nat) returns (exit: Exit, final: Loop)
    requires initial < |setup.endpoints| && Rounds(setup, world, initial, n).Ended?
    ensures Ended(exit, final) == Rounds(setup, world, initial, n)
  {
    var p := Start(initial);
    ghost var rounds: nat := 0;
    while p.Running?
      invariant rounds <= n && p == Rounds(setup, world, initial, rounds)
      decreases n - rounds
    {
      p := RunRound(setup, world, p.loop);
      rounds := rounds + 1;
    }
    EndedStays(setup, world, initial, rounds, n);
    return p.exit, p.loop;
  }

  // ---- admission ----

  datatype Answer =
    | AllBanned
    | NoEndpoint
    | RateLimited
    | Served(exit: Exit)

  /** check_all_rate_limits: team first, then token; a team reservation is not given back. */
  method CheckAllRateLimits(c: Caller) returns (admitted: bool, takes: seq<Take>)
    ensures admitted <==> Admitted(c)
    ensures admitted <==>
      && (c.teamRpm > 0 ==> c.teamSyncAllows) && (c.teamRpm > 0 || c.teamTpm > 0 ==> c.teamAllows)
      && (c.tokenRpm > 0 ==> c.tokenSyncAllows) && (c.tokenRpm > 0 || c.tokenTpm > 0 ==> c.tokenAllows)
    ensures takes == AdmissionTakes(c)
  {
    takes := [];
    if c.teamRpm > 0 && !c.teamSyncAllows {
      return false, takes;
    }
    if c.teamRpm > 0 || c.teamTpm > 0 {
      if !c.teamAllows {
        return false, takes;
      }
      if c.teamTpm > 0 {
        takes := takes + [Reserve(TeamBudget(c.team))];
      }
    }
    if c.tokenRpm > 0 && !c.tokenSyncAllows {
      return false, takes;
    }
    if c.tokenRpm > 0 || c.tokenTpm > 0 {
      if !c.tokenAllows {
        return false, takes;
      }
      if c.tokenTpm > 0 {
        takes := takes + [Reserve(TokenBudget(c.token))];
      }
    }
    return true, takes;
  }

  // ---- the whole request ----

  /** The handler's names of those of the first n endpoints that are banned now. */
  function SnapshotUpTo(model: Setup, isBanned: nat -> bool, n: nat): set<string>
    requires n <= |model.endpoints|
  {
    set i | 0 <= i < n && isBanned(i) :: NameAt(model, i)
  }

  /** The ban snapshot. */
  function Snapshot(model: Setup, isBanned: nat -> bool): set<string> {
    SnapshotUpTo(model, isBanned, |model.endpoints|)
  }

  method TakeSnapshot(model: Setup, isBanned: nat -> bool) returns (banned: set<string>)
    ensures banned == Snapshot(model, isBanned)
    ensures forall name :: name in banned <==>
      exists i :: 0 <= i < |model.endpoints| && isBanned(i) && model.handlerName(model.endpoints[i]) == name
  {
    banned := {};
    for i := 0 to |model.endpoints|
      invariant banned == SnapshotUpTo(model, isBanned, i)
    {
      SnapshotGrows(model, isBanned, i);
      if isBanned(i) {
        banned := banned + {model.handlerName(model.endpoints[i])};
      }
    }
  }

  /** The first n endpoints are all banned and have different names. */
  ghost predicate AllDistinctlyBanned(model: Setup, isBanned: nat -> bool, n: nat)
    requires n <= |model.endpoints|
  {
    && (forall i :: 0 <= i < n ==> isBanned(i))
    && (forall i, j :: 0 <= i < j < n ==> NameAt(model, i) != NameAt(model, j))
  }

  /** The snapshot has as many names as the model has endpoints - the "all endpoints banned"
      answer - exactly when every endpoint is banned and no two share a name. */
  lemma {:induction false} AllBannedExactly(model: Setup, isBanned: nat -> bool, n: nat)
    requires n <= |model.endpoints|
    ensures |SnapshotUpTo(model, isBanned, n)| <= n
    ensures |SnapshotUpTo(model, isBanned, n)| == n <==> AllDistinctlyBanned(model, isBanned, n)
  {
    if n > 0 {
      AllBannedExactly(model, isBanned, n - 1);
      SnapshotGrows(model, isBanned, n - 1);
    }
  }

  lemma SnapshotGrows(model: Setup, isBanned: nat -> bool, n: nat)
    requires n < |model.endpoints|
    ensures SnapshotUpTo(model, isBanned, n + 1) ==
      SnapshotUpTo(model, isBanned, n) + if isBanned(n) then {NameAt(model, n)} else {}
    ensures AllDistinctlyBanned(model, isBanned, n + 1) <==>
      AllDistinctlyBanned(model, isBanned, n) && isBanned(n) && NameAt(model, n) !in SnapshotUpTo(model, isBanned, n)
  {}

  /** The sticky endpoint if it exists and is not banned, else the balancer's choice. */
  function Initial(setup: Setup, sticky: Option<nat>, counter: nat): Option<nat> {
    if sticky.Some? && sticky.value < |setup.endpoints| && NameAt(setup, sticky.value) !in setup.banned then sticky
    else if setup.endpoints == [] then None
    else Pick(OpenSlots(setup.endpoints, setup.balancerName, setup.banned, {}), counter % |setup.endpoints|)
  }

  /** The first endpoint exists; if the names agree, it is not banned. */
  lemma InitialNotBanned(setup: Setup, sticky: Option<nat>, counter: nat)
    requires Initial(setup, sticky, counter).Some?
    ensures Initial(setup, sticky, counter).value < |setup.endpoints|
    ensures NamesAgree(setup) ==> NameAt(setup, Initial(setup, sticky, counter).value) !in setup.banned
  {
    if setup.endpoints != [] {
      PickFailsExactly(OpenSlots(setup.endpoints, setup.balancerName, setup.banned, {}), counter % |setup.endpoints|);
    }
  }

  /** A sticky endpoint that exists and is not banned is kept.  Otherwise the first endpoint is
      the one nearest to the counter's slot that is not banned under the balancer's name, and
      there is none only if all are. */
  lemma InitialExactly(setup: Setup, sticky: Option<nat>, counter: nat)
    ensures var first := Initial(setup, sticky, counter);
      if sticky.Some? && sticky.value < |setup.endpoints| && setup.handlerName(setup.endpoints[sticky.value]) !in setup.banned
      then first == sticky
      else
        && (first.None? <==> forall i :: 0 <= i < |setup.endpoints| ==> setup.balancerName(setup.endpoints[i]) in setup.banned)
        && (first.Some? ==>
            && setup.endpoints != []
            && IsNearest(setup.endpoints, setup.balancerName, setup.banned, counter % |setup.endpoints|, first.value))
  {
    if setup.endpoints != [] {
      PickNearest(setup.endpoints, setup.balancerName, setup.banned, {}, counter % |setup.endpoints|);
      assert setup.banned + {} == setup.banned;
    }
  }

  function AtBans(model: Setup, isBanned: nat -> bool): Setup {
    model.(banned := Snapshot(model, isBanned))
  }

  /** The request passes the ban check, finds an endpoint and is admitted. */
  predicate ReachesLoop(setup: Setup, sticky: Option<nat>, counter: nat, c: Caller) {
    && !(|setup.endpoints| > 0 && |setup.banned| == |setup.endpoints|)
    && Initial(setup, sticky, counter).Some?
    && Admitted(c)
  }

  /** If the request reaches its retry loop, the loop ends, in round `n` or before. */
  ghost predicate LoopEnds(setup: Setup, sticky: Option<nat>, counter: nat, c: Caller, world: World, n: nat) {
    ReachesLoop(setup, sticky, counter, c) ==>
      var initial := Initial(setup, sticky, counter);
      initial.value < |setup.endpoints| && Rounds(setup, world, initial.value, n).Ended?
  }

  /** If the names agree it always does. */
  lemma AgreedLoopEnds(setup: Setup, sticky: Option<nat>, counter: nat, c: Caller, world: World)
    requires NamesAgree(setup)
    ensures LoopEnds(setup, sticky, counter, c, world, |Unexplored(setup, {})|)
  {
    if ReachesLoop(setup, sticky, counter, c) {
      InitialNotBanned(setup, sticky, counter);
      RetryLoopCorrect(setup, world, Initial(setup, sticky, counter).value);
    }
  }

  method ServeRequest(model: Setup, isBanned: nat -> bool, sticky: Option<nat>, counter: nat, c: Caller, world: World,
                      ghost n: nat)
    returns (answer: Answer, takes: seq<Take>)
    requires LoopEnds(AtBans(model, isBanned), sticky, counter, c, world, n)
    ensures var setup := AtBans(model, isBanned);
      var initial := Initial(setup, sticky, counter);
      && (answer.AllBanned? <==> |model.endpoints| > 0 && |setup.banned| == |model.endpoints|)
      && (answer.NoEndpoint? <==> !answer.AllBanned? && initial.None?)
      && (answer.RateLimited? <==> !answer.AllBanned? && initial.Some? && !Admitted(c))
      && (answer.Served? <==> ReachesLoop(setup, sticky, counter, c))
      && (answer.AllBanned? || answer.NoEndpoint? ==> takes == [])
      && (answer.RateLimited? ==> takes == AdmissionTakes(c))
      && (answer.Served? ==>
          && initial.value < |setup.endpoints|
          && var p := Rounds(setup, world, initial.value, n);
          && p.Ended? && answer.exit == p.exit
          && takes == RequestTakes(setup, c, p))
  {
    var banned := TakeSnapshot(model, isBanned);
    var setup := model.(banned := banned);
    if |model.endpoints| == |banned| && |model.endpoints| > 0 {
      return AllBanned, [];
    }
    var initial: Option<nat> := None;
    if sticky.Some? && sticky.value < |setup.endpoints| {
      if setup.handlerName(setup.endpoints[sticky.value]) !in banned {
        initial := sticky;
      }
    }
    if initial.None? && |setup.endpoints| > 0 {
      initial := ScanRing(setup.endpoints, setup.balancerName, banned, {}, counter % |setup.endpoints|);
    }
    assert initial == Initial(setup, sticky, counter);
    if initial.None? {
      return NoEndpoint, [];
    }
    InitialNotBanned(setup, sticky, counter);
    var admitted, admission := CheckAllRateLimits(c);
    if !admitted {
      return RateLimited, admission;
    }
    var exit, final := RunRetryLoop(setup, world, initial.value, n);
    answer := Served(exit);
    takes := admission + LoopTakes(setup, final.log) + SettlementTakes(setup, c, exit);
  }
}
