/** What one request takes from the TPM budgets (src/proxy/handler.rs): one token of the
    team, the token and each endpoint tried, on admission, and the rest of the usage when its
    response is settled. */
module RequestCharges {
  import opened Basics
  import opened Endpoints
  import opened RetryLoop
  import SseUsage

  /** Budgets by kind: "team:<name>", the token's own key, "ep:<endpoint name>". */
  datatype Budget = TeamBudget(team: string) | TokenBudget(token: string) | EndpointBudget(name: string)

  /** A token reserved on admission, or the settlement of a response of `usage` tokens. */
  datatype Take = Reserve(budget: Budget) | Settle(budget: Budget, usage: nat)

  function Amount(t: Take): nat {
    match t
    case Reserve(_) => 1
    case Settle(_, usage) => if usage > 1 then usage - 1 else 0
  }

  // ---- adding up takes ----

  /** What a sum over takes adds up: tokens charged to a budget, admissions to it, or
      settlements of it. */
  datatype Measure = Tokens(b: Budget) | Admissions(b: Budget) | Settlements(b: Budget)

  function Weigh(m: Measure, t: Take): nat {
    if t.budget != m.b then 0 else
      match m
      case Tokens(_) => Amount(t)
      case Admissions(_) => if t.Reserve? then 1 else 0
      case Settlements(_) => if t.Settle? then 1 else 0
  }

  function TallyFirst(takes: seq<Take>, n: nat, m: Measure): nat
    requires n <= |takes|
  {
    if n == 0 then 0 else TallyFirst(takes, n - 1, m) + Weigh(m, takes[n - 1])
  }

  function Tally(takes: seq<Take>, m: Measure): nat {
    TallyFirst(takes, |takes|, m)
  }

  /** The tokens the takes charge to a budget. */
  function Charged(takes: seq<Take>, b: Budget): nat {
    Tally(takes, Tokens(b))
  }

  lemma {:induction false} TallySame(x: seq<Take>, y: seq<Take>, n: nat, m: Measure)
    requires n <= |x| && n <= |y| && forall k :: 0 <= k < n ==> x[k] == y[k]
    ensures TallyFirst(x, n, m) == TallyFirst(y, n, m)
  {
    if n > 0 { TallySame(x, y, n - 1, m); }
  }

  lemma {:induction false} TallySuffix(x: seq<Take>, y: seq<Take>, n: nat, m: Measure)
    requires n <= |y|
    ensures TallyFirst(x + y, |x| + n, m) == Tally(x, m) + TallyFirst(y, n, m)
  {
    if n == 0 { TallySame(x + y, x, |x|, m); } else { TallySuffix(x, y, n - 1, m); }
  }

  lemma TallyAppend(x: seq<Take>, y: seq<Take>, m: Measure)
    ensures Tally(x + y, m) == Tally(x, m) + Tally(y, m)
  {
    TallySuffix(x, y, |y|, m);
  }

  lemma TallyOne(t: Take, m: Measure)
    ensures Tally([t], m) == Weigh(m, t)
  {
    assert TallyFirst([t], 0, m) == 0;
  }

  function TakeIf(condition: bool, t: Take): seq<Take> {
    if condition then [t] else []
  }

  lemma AppendIf(takes: seq<Take>, condition: bool, t: Take, m: Measure)
    ensures Tally(takes + TakeIf(condition, t), m) == Tally(takes, m) + if condition then Weigh(m, t) else 0
  {
    TallyAppend(takes, TakeIf(condition, t), m);
    if condition { TallyOne(t, m); }
  }

  /** Reservations are charged one token each. */
  lemma {:induction false} OnlyReserves(takes: seq<Take>, n: nat, b: Budget)
    requires n <= |takes| && forall k :: 0 <= k < n ==> takes[k].Reserve?
    ensures TallyFirst(takes, n, Tokens(b)) == TallyFirst(takes, n, Admissions(b))
    ensures TallyFirst(takes, n, Settlements(b)) == 0
  {
    if n > 0 { OnlyReserves(takes, n - 1, b); }
  }

  /** One settlement of each of some budgets. */
  lemma {:induction false} OnlySettles(takes: seq<Take>, n: nat, usage: nat, b: Budget)
    requires n <= |takes| && usage > 1
    requires forall k :: 0 <= k < n ==> takes[k].Settle? && takes[k].usage == usage
    requires forall j, k :: 0 <= j < k < n ==> takes[j].budget != takes[k].budget
    ensures TallyFirst(takes, n, Admissions(b)) == 0
    ensures TallyFirst(takes, n, Settlements(b)) == if exists k :: 0 <= k < n && takes[k].budget == b then 1 else 0
    ensures TallyFirst(takes, n, Tokens(b)) == if exists k :: 0 <= k < n && takes[k].budget == b then usage - 1 else 0
  {
    if n > 0 { OnlySettles(takes, n - 1, usage, b); }
  }

  // ---- the takes of a request ----

  /** Who asks, with its limits, and the verdicts of the limiters it meets on admission. */
  datatype Caller = Caller(
    team: string, token: string, teamRpm: nat, teamTpm: nat, tokenRpm: nat, tokenTpm: nat,
    teamSyncAllows: bool, teamAllows: bool, tokenSyncAllows: bool, tokenAllows: bool)

  predicate TeamAdmits(c: Caller) {
    && (c.teamRpm > 0 ==> c.teamSyncAllows)
    && (c.teamRpm > 0 || c.teamTpm > 0 ==> c.teamAllows)
  }

  predicate TokenAdmits(c: Caller) {
    && (c.tokenRpm > 0 ==> c.tokenSyncAllows)
    && (c.tokenRpm > 0 || c.tokenTpm > 0 ==> c.tokenAllows)
  }

  predicate Admitted(c: Caller) {
    TeamAdmits(c) && TokenAdmits(c)
  }

  function AdmissionTakes(c: Caller): seq<Take> {
    TakeIf(TeamAdmits(c) && c.teamTpm > 0, Reserve(TeamBudget(c.team)))
    + TakeIf(Admitted(c) && c.tokenTpm > 0, Reserve(TokenBudget(c.token)))
  }

  predicate IsReservation(setup: Setup, e: Event) {
    e.Reserved? && e.i < |setup.endpoints|
  }

  function LoopTakes(setup: Setup, log: seq<Event>): seq<Take> {
    if log == [] then [] else
      var e := log[|log| - 1];
      LoopTakes(setup, log[..|log| - 1])
      + (if IsReservation(setup, e) then [Reserve(EndpointBudget(NameAt(setup, e.i)))] else [])
  }

  /** How often the loop reserved a token of the endpoint budget `name`. */
  function ReservedTimes(setup: Setup, log: seq<Event>, name: string): nat {
    if log == [] then 0 else
      var e := log[|log| - 1];
      ReservedTimes(setup, log[..|log| - 1], name)
      + (if IsReservation(setup, e) && NameAt(setup, e.i) == name then 1 else 0)
  }

  /** A streamed response is settled only if its status is a success. */
  predicate Settles(setup: Setup, exit: Exit) {
    exit.Answered? && exit.i < |setup.endpoints| && (setup.isStream ==> 200 <= exit.status < 300)
  }

  function SettlementTakes(setup: Setup, c: Caller, exit: Exit): seq<Take> {
    if !Settles(setup, exit) || exit.usage <= 1 then [] else
      TakeIf(c.teamTpm > 0, Settle(TeamBudget(c.team), exit.usage))
      + TakeIf(c.tokenTpm > 0, Settle(TokenBudget(c.token), exit.usage))
      + TakeIf(setup.endpoints[exit.i].tpm > 0, Settle(EndpointBudget(NameAt(setup, exit.i)), exit.usage))
  }

  /** All takes of a request that has passed the rate limits and stands at phase p. */
  function RequestTakes(setup: Setup, c: Caller, p: Phase): seq<Take> {
    AdmissionTakes(c) + LoopTakes(setup, p.loop.log) + (if p.Ended? then SettlementTakes(setup, c, p.exit) else [])
  }

  /** The budgets of the caller that have a limit. */
  predicate IsLimited(c: Caller, b: Budget) {
    (b == TeamBudget(c.team) && c.teamTpm > 0) || (b == TokenBudget(c.token) && c.tokenTpm > 0)
  }

  /** The settlement reaches this budget. */
  predicate SettlesAt(setup: Setup, c: Caller, exit: Exit, b: Budget) {
    && Settles(setup, exit) && exit.usage > 1
    && (IsLimited(c, b) || (b == EndpointBudget(NameAt(setup, exit.i)) && setup.endpoints[exit.i].tpm > 0))
  }

  // ---- the streaming task makes the same settlement ----

  /** The limits a streamed response is settled against. */
  function StreamLimits(setup: Setup, c: Caller, exit: Exit): SseUsage.TpmLimits
    requires exit.Answered? && exit.i < |setup.endpoints|
  {
    SseUsage.TpmLimits(c.teamTpm, c.tokenTpm, setup.endpoints[exit.i].tpm)
  }

  /** What one deduction of the streaming task is as a take. */
  predicate IsTake(setup: Setup, c: Caller, exit: Exit, s: SseUsage.Settlement, t: Take)
    requires exit.Answered? && exit.i < |setup.endpoints|
  {
    && t.Settle? && Amount(t) == s.amount
    && t.budget == match s.target
                   case Team => TeamBudget(c.team)
                   case Token => TokenBudget(c.token)
                   case Endpoint => EndpointBudget(NameAt(setup, exit.i))
  }

  /** The deductions of the streaming task are the settlement takes of the request whose
      response reported that usage. */
  lemma StreamSettlement(setup: Setup, c: Caller, exit: Exit, u: SseUsage.Usage)
    requires exit.Answered? && exit.i < |setup.endpoints| && (setup.isStream ==> 200 <= exit.status < 300)
    requires exit.usage == if u.prompt + u.completion <= 0xFFFF_FFFF_FFFF_FFFF then u.prompt + u.completion else 0xFFFF_FFFF_FFFF_FFFF
    ensures var made := SseUsage.Settlements(u, StreamLimits(setup, c, exit));
      var takes := SettlementTakes(setup, c, exit);
      && |made| == |takes|
      && forall k :: 0 <= k < |made| ==> IsTake(setup, c, exit, made[k], takes[k])
  {}

  // ---- what each part charges ----

  /** Admission takes one token of the team if its limiters allow the request, and one of the
      token if those of both do; a team token stays taken if the token's limiters refuse. */
  lemma AdmissionExactly(c: Caller, m: Measure)
    ensures var teamAllows := (c.teamRpm > 0 ==> c.teamSyncAllows) && (c.teamRpm > 0 || c.teamTpm > 0 ==> c.teamAllows);
      var tokenAllows := (c.tokenRpm > 0 ==> c.tokenSyncAllows) && (c.tokenRpm > 0 || c.tokenTpm > 0 ==> c.tokenAllows);
      && (Admitted(c) <==> teamAllows && tokenAllows)
      && Tally(AdmissionTakes(c), m) ==
           if m.Settlements? then 0
           else if m.b == TeamBudget(c.team) && c.teamTpm > 0 && teamAllows then 1
           else if m.b == TokenBudget(c.token) && c.tokenTpm > 0 && teamAllows && tokenAllows then 1
           else 0
  {
    var first := TakeIf(TeamAdmits(c) && c.teamTpm > 0, Reserve(TeamBudget(c.team)));
    AppendIf([], TeamAdmits(c) && c.teamTpm > 0, Reserve(TeamBudget(c.team)), m);
    AppendIf(first, Admitted(c) && c.tokenTpm > 0, Reserve(TokenBudget(c.token)), m);
    assert [] + first == first;
  }

  lemma AdmissionTally(c: Caller, m: Measure)
    requires Admitted(c)
    ensures Tally(AdmissionTakes(c), m) == if IsLimited(c, m.b) && !m.Settlements? then 1 else 0
  {
    AdmissionExactly(c, m);
  }

  lemma {:induction false} LoopTally(setup: Setup, log: seq<Event>, m: Measure)
    ensures Tally(LoopTakes(setup, log), m) ==
      if m.b.EndpointBudget? && !m.Settlements? then ReservedTimes(setup, log, m.b.name) else 0
  {
    if log != [] {
      var e, before := log[|log| - 1], LoopTakes(setup, log[..|log| - 1]);
      LoopTally(setup, log[..|log| - 1], m);
      if IsReservation(setup, e) {
        TallyAppend(before, [Reserve(EndpointBudget(NameAt(setup, e.i)))], m);
        TallyOne(Reserve(EndpointBudget(NameAt(setup, e.i))), m);
      } else {
        assert before + [] == before;
      }
    }
  }

  lemma {:induction false} LoopReserves(setup: Setup, log: seq<Event>)
    ensures forall k :: 0 <= k < |LoopTakes(setup, log)| ==> LoopTakes(setup, log)[k].Reserve?
  {
    if log != [] { LoopReserves(setup, log[..|log| - 1]); }
  }

  /** Settlements are of one usage and of different budgets. */
  lemma SettlementShape(setup: Setup, c: Caller, exit: Exit)
    ensures var takes := SettlementTakes(setup, c, exit);
      && (takes != [] ==> Settles(setup, exit) && exit.usage > 1)
      && (forall k :: 0 <= k < |takes| ==> takes[k].Settle? && takes[k].usage == exit.usage
                                           && SettlesAt(setup, c, exit, takes[k].budget))
      && (forall j, k :: 0 <= j < k < |takes| ==> takes[j].budget != takes[k].budget)
      && (forall b :: SettlesAt(setup, c, exit, b) ==> exists k :: 0 <= k < |takes| && takes[k].budget == b)
  {
    var takes := SettlementTakes(setup, c, exit);
    if Settles(setup, exit) && exit.usage > 1 {
      var ep := EndpointBudget(NameAt(setup, exit.i));
      var own := TakeIf(c.teamTpm > 0, Settle(TeamBudget(c.team), exit.usage))
                 + TakeIf(c.tokenTpm > 0, Settle(TokenBudget(c.token), exit.usage));
      assert c.teamTpm > 0 ==> takes[0].budget == TeamBudget(c.team);
      assert c.tokenTpm > 0 ==> own[|own| - 1] == takes[|own| - 1] && takes[|own| - 1].budget == TokenBudget(c.token);
      assert setup.endpoints[exit.i].tpm > 0 ==> takes[|own|].budget == ep;
    }
  }

  lemma SettlementTokens(setup: Setup, c: Caller, exit: Exit, b: Budget)
    ensures Charged(SettlementTakes(setup, c, exit), b) == if SettlesAt(setup, c, exit, b) then exit.usage - 1 else 0
  {
    var takes := SettlementTakes(setup, c, exit);
    SettlementShape(setup, c, exit);
    if takes != [] { OnlySettles(takes, |takes|, exit.usage, b); }
  }

  // ---- the ledger of one request ----

  /** What one admission finally costs: max(1, usage) if settled, else the reserved token. */
  function Due(setup: Setup, exit: Exit): nat {
    if Settles(setup, exit) then AtLeastOne(exit.usage) else 1
  }

  lemma RequestTally(setup: Setup, c: Caller, p: Phase, b: Budget)
    requires p.Ended? && Admitted(c)
    ensures Charged(RequestTakes(setup, c, p), b) ==
      (if IsLimited(c, b) then 1 else 0)
      + (if b.EndpointBudget? then ReservedTimes(setup, p.loop.log, b.name) else 0)
      + (if SettlesAt(setup, c, p.exit, b) then p.exit.usage - 1 else 0)
  {
    var a, l, s := AdmissionTakes(c), LoopTakes(setup, p.loop.log), SettlementTakes(setup, c, p.exit);
    AdmissionTally(c, Tokens(b));
    LoopTally(setup, p.loop.log, Tokens(b));
    SettlementTokens(setup, c, p.exit, b);
    TallyAppend(a, l, Tokens(b));
    TallyAppend(a + l, s, Tokens(b));
  }

  /** MAIN RESULT (ledger of one request): whatever the endpoints are called and however
      often the request was retried, if its loop ended it charged the team and the token
      budget once - max(1, usage) if its response was settled, one token if not - and every
      endpoint budget one token for each reservation there, plus the rest of the usage at
      the endpoint that answered. */
  lemma RequestLedger(setup: Setup, world: World, initial: nat, rounds: nat, c: Caller, name: string)
    requires Admitted(c)
    requires initial < |setup.endpoints| && Rounds(setup, world, initial, rounds).Ended?
    ensures var p := Rounds(setup, world, initial, rounds);
      var takes := RequestTakes(setup, c, p);
      && Charged(takes, TeamBudget(c.team)) == (if c.teamTpm > 0 then Due(setup, p.exit) else 0)
      && Charged(takes, TokenBudget(c.token)) == (if c.tokenTpm > 0 then Due(setup, p.exit) else 0)
      && var settled := SettlesAt(setup, c, p.exit, EndpointBudget(name));
         && Charged(takes, EndpointBudget(name)) ==
              ReservedTimes(setup, p.loop.log, name) + (if settled then Due(setup, p.exit) - 1 else 0)
         && (settled ==> ReservedTimes(setup, p.loop.log, name) >= 1)
  {
    var p := Rounds(setup, world, initial, rounds);
    RequestTally(setup, c, p, TeamBudget(c.team));
    RequestTally(setup, c, p, TokenBudget(c.token));
    RequestTally(setup, c, p, EndpointBudget(name));
    AnsweredWasReserved(setup, world, initial, rounds);
  }

  /** What a request costs its team, in numbers: nothing without a limit; the usage of its
      answer if that is above one token and, for a stream, the status a success; otherwise
      the one reserved token. */
  lemma TeamCharge(setup: Setup, world: World, initial: nat, rounds: nat, c: Caller)
    requires Admitted(c)
    requires initial < |setup.endpoints| && Rounds(setup, world, initial, rounds).Ended?
    ensures var p := Rounds(setup, world, initial, rounds);
      Charged(RequestTakes(setup, c, p), TeamBudget(c.team)) ==
        if c.teamTpm == 0 then 0
        else if p.exit.Answered? && p.exit.usage > 1 && (setup.isStream ==> 200 <= p.exit.status < 300) then p.exit.usage
        else 1
  {
    RequestLedger(setup, world, initial, rounds, c, "");
    AnsweredWasReserved(setup, world, initial, rounds);
  }

  predicate ReservesAt(setup: Setup, e: Event, name: string) {
    e.Reserved? && e.i < |setup.endpoints| && setup.handlerName(setup.endpoints[e.i]) == name
  }

  lemma {:induction false} ReservationsAre(setup: Setup, log: seq<Event>, name: string)
    ensures ReservedTimes(setup, log, name) == |set k | 0 <= k < |log| && ReservesAt(setup, log[k], name)|
  {
    if log != [] {
      var g, n := log[..|log| - 1], |log| - 1;
      ReservationsAre(setup, g, name);
      assert (set k | 0 <= k < |log| && ReservesAt(setup, log[k], name)) ==
        (set k | 0 <= k < |g| && ReservesAt(setup, g[k], name)) + if ReservesAt(setup, log[n], name) then {n} else {};
    }
  }

  // ---- visits ----

  /** Event k is in its place: a reservation comes right before the contact it is for, and
      no endpoint with a token budget is contacted without one. */
  predicate InPlace(setup: Setup, log: seq<Event>, k: nat)
    requires k < |log|
  {
    && log[k].i < |setup.endpoints|
    && (log[k].Reserved? ==>
        && setup.endpoints[log[k].i].tpm > 0
        && k + 1 < |log| && log[k + 1].Contacted? && log[k + 1].i == log[k].i)
    && (log[k].Contacted? && setup.endpoints[log[k].i].tpm > 0 ==> k > 0 && log[k - 1] == Reserved(log[k].i))
  }

  /** The log is a sequence of whole visits. */
  ghost predicate WholeVisits(setup: Setup, log: seq<Event>) {
    forall k :: 0 <= k < |log| ==> InPlace(setup, log, k)
  }

  /** The events of one visit of endpoint i. */
  predicate IsVisit(setup: Setup, events: seq<Event>, i: nat) {
    && i < |setup.endpoints|
    && (|| events == [Refused(i)]
        || (|events| == 1 && events[0].Contacted? && events[0].i == i && setup.endpoints[i].tpm == 0)
        || (|events| == 2 && events[0] == Reserved(i) && events[1].Contacted? && events[1].i == i
            && setup.endpoints[i].tpm > 0))
  }

  lemma VisitAdded(setup: Setup, log: seq<Event>, events: seq<Event>, i: nat)
    requires WholeVisits(setup, log) && IsVisit(setup, events, i)
    ensures WholeVisits(setup, log + events)
  {
    var log' := log + events;
    forall k | 0 <= k < |log'| ensures InPlace(setup, log', k) {
      if k < |log| { assert InPlace(setup, log, k); }
    }
  }

  lemma {:induction false} RoundsAreVisits(setup: Setup, world: World, initial: nat, rounds: nat)
    requires initial < |setup.endpoints|
    ensures WholeVisits(setup, Rounds(setup, world, initial, rounds).loop.log)
  {
    if rounds > 0 {
      RoundsAreVisits(setup, world, initial, rounds - 1);
      NextIsVisit(setup, world, initial, rounds);
    } else {
      assert Rounds(setup, world, initial, 0).loop.log == [];
    }
  }

  lemma NextIsVisit(setup: Setup, world: World, initial: nat, rounds: nat)
    requires initial < |setup.endpoints| && rounds > 0
    requires WholeVisits(setup, Rounds(setup, world, initial, rounds - 1).loop.log)
    ensures WholeVisits(setup, Rounds(setup, world, initial, rounds).loop.log)
  {
    AgainIsVisit(setup, world, Rounds(setup, world, initial, rounds - 1));
  }

  lemma AgainIsVisit(setup: Setup, world: World, p: Phase)
    requires WellPlaced(setup, p) && WholeVisits(setup, p.loop.log)
    ensures WholeVisits(setup, Again(setup, world, p).loop.log)
  {
    if p.Running? {
      RoundLog(setup, world, p.loop);
      VisitAdded(setup, p.loop.log, RoundEvents(setup, world, p.loop), p.loop.current);
    }
  }

  lemma {:induction false} ReservedOnce(setup: Setup, log: seq<Event>, k: nat)
    requires k < |log| && IsReservation(setup, log[k])
    ensures ReservedTimes(setup, log, NameAt(setup, log[k].i)) >= 1
  {
    if k < |log| - 1 { ReservedOnce(setup, log[..|log| - 1], k); }
  }

  /** An endpoint with a token budget was charged before it could answer. */
  lemma AnsweredWasReserved(setup: Setup, world: World, initial: nat, rounds: nat)
    requires initial < |setup.endpoints|
    ensures var p := Rounds(setup, world, initial, rounds);
      p.Ended? && p.exit.Answered? ==>
        && p.exit.i < |setup.endpoints|
        && (setup.endpoints[p.exit.i].tpm > 0 ==> ReservedTimes(setup, p.loop.log, NameAt(setup, p.exit.i)) >= 1)
  {
    var p := Rounds(setup, world, initial, rounds);
    ExitExplained(setup, world, initial, rounds);
    RoundsAreVisits(setup, world, initial, rounds);
    if p.Ended? && p.exit.Answered? { ContactWasReserved(setup, p.loop.log); }
  }

  lemma ContactWasReserved(setup: Setup, log: seq<Event>)
    requires WholeVisits(setup, log) && log != [] && log[|log| - 1].Contacted?
    ensures var i := log[|log| - 1].i;
      && i < |setup.endpoints|
      && (setup.endpoints[i].tpm > 0 ==> ReservedTimes(setup, log, NameAt(setup, i)) >= 1)
  {
    assert InPlace(setup, log, |log| - 1);
    if setup.endpoints[log[|log| - 1].i].tpm > 0 { ReservedOnce(setup, log, |log| - 2); }
  }

  // ---- one reservation for each endpoint, if the names agree ----

  /** How many of the last events belong to the last visit. */
  function LastVisit(log: seq<Event>): nat
    requires log != []
  {
    if |log| >= 2 && log[|log| - 2].Reserved? then 2 else 1
  }

  lemma VisitRemoved(setup: Setup, log: seq<Event>)
    requires WholeVisits(setup, log) && log != []
    ensures var cut := |log| - LastVisit(log);
      && WholeVisits(setup, log[..cut])
      && IsVisit(setup, log[cut..], log[|log| - 1].i)
  {
    var cut := |log| - LastVisit(log);
    assert InPlace(setup, log, |log| - 1) && InPlace(setup, log, cut);
    forall k | 0 <= k < cut ensures InPlace(setup, log[..cut], k) {
      assert InPlace(setup, log, k);
    }
    assert log[cut..][|log| - 1 - cut] == log[|log| - 1];
  }

  lemma ReservedNext(setup: Setup, log: seq<Event>, e: Event, name: string)
    ensures ReservedTimes(setup, log + [e], name) == ReservedTimes(setup, log, name)
      + (if IsReservation(setup, e) && NameAt(setup, e.i) == name then 1 else 0)
  {
    assert (log + [e])[..|log|] == log;
  }

  lemma VisitReserves(setup: Setup, log: seq<Event>, events: seq<Event>, i: nat, name: string)
    requires IsVisit(setup, events, i)
    ensures Visited(log + events) == Visited(log) + [i]
    ensures ReservedTimes(setup, log + events, name) == ReservedTimes(setup, log, name)
      + (if |events| == 2 && NameAt(setup, i) == name then 1 else 0)
  {
    ReservedNext(setup, log, events[0], name);
    if |events| == 2 {
      ReservedNext(setup, log + [events[0]], events[1], name);
      VisitedOne(log, events[1]);
      assert events == [Reserved(i), events[1]];
      assert log + events == log + [events[0]] + [events[1]];
    } else {
      VisitedOne(log, events[0]);
      assert events == [events[0]];
    }
  }

  lemma SafeBefore(setup: Setup, before: seq<Event>, log: seq<Event>, i: nat)
    requires Safe(setup, log) && Visited(log) == Visited(before) + [i]
    ensures Safe(setup, before)
    ensures i < |setup.endpoints| && !IsVisited(setup, Visited(before), NameAt(setup, i))
  {
    var v, v' := Visited(before), Visited(log);
    assert v'[|v|] == i;
    assert forall k :: 0 <= k < |v| ==> v'[k] == v[k];
  }

  lemma {:induction false} SafeReserves(setup: Setup, log: seq<Event>, name: string)
    requires WholeVisits(setup, log) && Safe(setup, log)
    ensures ReservedTimes(setup, log, name) <= if IsVisited(setup, Visited(log), name) then 1 else 0
    decreases |log|
  {
    if log != [] {
      var i, cut := log[|log| - 1].i, |log| - LastVisit(log);
      var before, events := log[..cut], log[cut..];
      assert before + events == log;
      VisitRemoved(setup, log);
      VisitReserves(setup, before, events, i, name);
      SafeBefore(setup, before, log, i);
      SafeReserves(setup, before, name);
      VisitedLater(setup, Visited(before), i, name);
    }
  }

  /** If the names agree, no retry reserves twice at one endpoint, so the endpoint budgets
      too are charged max(1, usage) or one token, or nothing. */
  lemma AgreedLedger(setup: Setup, world: World, initial: nat, c: Caller, name: string)
    requires NamesAgree(setup) && Admitted(c)
    requires initial < |setup.endpoints| && NameAt(setup, initial) !in setup.banned
    ensures var p := Rounds(setup, world, initial, |Unexplored(setup, {})|);
      && p.Ended?
      && Charged(RequestTakes(setup, c, p), EndpointBudget(name)) ==
           (if ReservedTimes(setup, p.loop.log, name) == 0 then 0
            else if SettlesAt(setup, c, p.exit, EndpointBudget(name)) then Due(setup, p.exit)
            else 1)
  {
    var n := |Unexplored(setup, {})|;
    RetryLoopCorrect(setup, world, initial);
    RoundsAreVisits(setup, world, initial, n);
    SafeReserves(setup, Rounds(setup, world, initial, n).loop.log, name);
    RequestLedger(setup, world, initial, n, c, name);
  }
}
