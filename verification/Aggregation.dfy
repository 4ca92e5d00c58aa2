/** Hourly aggregation with a cursor (src/stats/pg.rs).

    `requests` is an append-only table; a run groups the rows between the cursor and the
    last full hour and upserts them into two hourly tables, then moves the cursor, all in
    one transaction.  Timestamps are microseconds; costs are reals. */
module Aggregation {
  import opened Basics

  const HOUR: nat := 3_600_000_000

  /** A row of `requests`.  `late` is history, invisible to SQL: the cursor had already
      passed `ts` when the row became visible. */
  datatype Row = Row(ts: nat, token: string, team: string, prompt: nat, completion: nat, cost: real, late: bool)

  datatype TokenUsage = TokenUsage(team: string, requests: nat, prompt: nat, completion: nat, cost: real)
  datatype TeamUsage = TeamUsage(requests: nat, prompt: nat, completion: nat, activeTokens: nat, cost: real)

  type TokenTable = map<(nat, string), TokenUsage>
  type TeamTable = map<(nat, string), TeamUsage>

  datatype Db = Db(rows: seq<Row>, tokens: TokenTable, teams: TeamTable, cursor: nat)

  function HourOf(ts: nat): nat { ts / HOUR * HOUR }

  predicate Aligned(t: nat) { t % HOUR == 0 }

  // ---- grouping ----

  /** Group keys: (hour, token hash) or (hour, team). */
  datatype Key = ByToken(hour: nat, token: string) | ByTeam(hour: nat, team: string)

  predicate InGroup(r: Row, k: Key) {
    match k
    case ByToken(hour, token) => HourOf(r.ts) == hour && r.token == token
    case ByTeam(hour, team) => HourOf(r.ts) == hour && r.team == team
  }

  /** Rows of a group with lo <= ts < hi; without `all`, only those that were on time. */
  predicate Picks(r: Row, k: Key, lo: nat, hi: nat, all: bool) {
    lo <= r.ts < hi && InGroup(r, k) && (all || !r.late)
  }

  function Group(rows: seq<Row>, k: Key, lo: nat, hi: nat, all: bool): seq<Row> {
    if rows == [] then [] else
      Group(rows[..|rows| - 1], k, lo, hi, all)
      + (if Picks(rows[|rows| - 1], k, lo, hi, all) then [rows[|rows| - 1]] else [])
  }

  function SumPrompt(g: seq<Row>): nat {
    if g == [] then 0 else SumPrompt(g[..|g| - 1]) + g[|g| - 1].prompt
  }

  function SumCompletion(g: seq<Row>): nat {
    if g == [] then 0 else SumCompletion(g[..|g| - 1]) + g[|g| - 1].completion
  }

  function SumCost(g: seq<Row>): real {
    if g == [] then 0.0 else SumCost(g[..|g| - 1]) + g[|g| - 1].cost
  }

  function TokenSummary(g: seq<Row>): TokenUsage {
    TokenUsage(if g == [] then "" else g[0].team, |g|, SumPrompt(g), SumCompletion(g), SumCost(g))
  }

  function TeamSummary(g: seq<Row>): TeamUsage {
    TeamUsage(|g|, SumPrompt(g), SumCompletion(g), |set r | r in g :: r.token|, SumCost(g))
  }

  /** The one-shot group-by of a range: the reference for the hourly tables. */
  function TokensOf(rows: seq<Row>, lo: nat, hi: nat, all: bool): TokenTable {
    map r | r in rows && lo <= r.ts < hi && (all || !r.late) ::
      (HourOf(r.ts), r.token) := TokenSummary(Group(rows, ByToken(HourOf(r.ts), r.token), lo, hi, all))
  }

  function TeamsOf(rows: seq<Row>, lo: nat, hi: nat, all: bool): TeamTable {
    map r | r in rows && lo <= r.ts < hi && (all || !r.late) ::
      (HourOf(r.ts), r.team) := TeamSummary(Group(rows, ByTeam(HourOf(r.ts), r.team), lo, hi, all))
  }

  // ---- a run ----

  function AddTokens(before: TokenUsage, added: TokenUsage): TokenUsage {
    TokenUsage(before.team, before.requests + added.requests, before.prompt + added.prompt,
               before.completion + added.completion, before.cost + added.cost)
  }

  function AddTeams(before: TeamUsage, added: TeamUsage): TeamUsage {
    TeamUsage(before.requests + added.requests, before.prompt + added.prompt, before.completion + added.completion,
              before.activeTokens + added.activeTokens, before.cost + added.cost)
  }

  /** INSERT ... ON CONFLICT DO UPDATE, adding on conflict. */
  function UpsertTokens(table: TokenTable, delta: TokenTable): TokenTable {
    map k | k in table.Keys + delta.Keys ::
      if k !in delta then table[k] else if k !in table then delta[k] else AddTokens(table[k], delta[k])
  }

  function UpsertTeams(table: TeamTable, delta: TeamTable): TeamTable {
    map k | k in table.Keys + delta.Keys ::
      if k !in delta then table[k] else if k !in table then delta[k] else AddTeams(table[k], delta[k])
  }

  /** The token statement groups by team as well but conflicts on (hour, token) alone: two
      teams under one token and hour touch one row twice, which aborts the transaction. */
  predicate Clash(rows: seq<Row>, lo: nat, hi: nat) {
    exists i, j :: 0 <= i < |rows| && 0 <= j < |rows|
      && lo <= rows[i].ts < hi && lo <= rows[j].ts < hi
      && HourOf(rows[i].ts) == HourOf(rows[j].ts) && rows[i].token == rows[j].token && rows[i].team != rows[j].team
  }

  /** A run at wall-clock time `now`; `commits` is false if it crashes before its commit. */
  function AfterRun(db: Db, now: nat, commits: bool): Db {
    var end := HourOf(now);
    if db.cursor >= end || !commits || Clash(db.rows, db.cursor, end) then db
    else Committed(db, end)
  }

  function Committed(db: Db, end: nat): Db {
    Db(db.rows,
       UpsertTokens(db.tokens, TokensOf(db.rows, db.cursor, end, true)),
       UpsertTeams(db.teams, TeamsOf(db.rows, db.cursor, end, true)),
       end)
  }

  function AfterInsert(db: Db, row: Row): Db {
    db.(rows := db.rows + [row.(late := row.ts < db.cursor)])
  }

  datatype Step = Insert(row: Row) | Run(now: nat, commits: bool)

  function After(c0: nat, steps: seq<Step>): Db {
    if steps == [] then Db([], map[], map[], c0) else
      var db := After(c0, steps[..|steps| - 1]);
      match steps[|steps| - 1]
      case Insert(row) => AfterInsert(db, row)
      case Run(now, commits) => AfterRun(db, now, commits)
  }

  // ---- the hourly tables are the one-shot group-by ----

  lemma HourBounds(ts: nat)
    ensures HourOf(ts) <= ts < HourOf(ts) + HOUR && Aligned(HourOf(ts))
  {}

  lemma AlignedSeparates(ts: nat, m: nat)
    requires Aligned(m)
    ensures HourOf(ts) < m <==> ts < m
  {
    assert m == m / HOUR * HOUR;
  }

  /** Cutting a range at an hour boundary (or at its start) cuts no group in two. */
  lemma {:induction false} GroupAtBoundary(rows: seq<Row>, k: Key, lo: nat, m: nat, hi: nat, all: bool)
    requires lo <= m <= hi && (Aligned(m) || m == lo)
    ensures k.hour < m && Aligned(m) ==>
      Group(rows, k, lo, hi, all) == Group(rows, k, lo, m, all) && Group(rows, k, m, hi, all) == []
    ensures k.hour >= m || m == lo ==>
      Group(rows, k, lo, hi, all) == Group(rows, k, m, hi, all) && Group(rows, k, lo, m, all) == []
  {
    if rows != [] {
      var r := rows[|rows| - 1];
      GroupAtBoundary(rows[..|rows| - 1], k, lo, m, hi, all);
      if Aligned(m) { AlignedSeparates(r.ts, m); }
      HourBounds(r.ts);
    }
  }

  /** If nothing late lies in the range, on-time rows are all rows. */
  lemma {:induction false} GroupAllOnTime(rows: seq<Row>, k: Key, lo: nat, hi: nat)
    requires forall i :: 0 <= i < |rows| && lo <= rows[i].ts < hi ==> !rows[i].late
    ensures Group(rows, k, lo, hi, true) == Group(rows, k, lo, hi, false)
  {
    if rows != [] { GroupAllOnTime(rows[..|rows| - 1], k, lo, hi); }
  }

  lemma GroupNext(rows: seq<Row>, row: Row, k: Key, lo: nat, hi: nat, all: bool)
    ensures Group(rows + [row], k, lo, hi, all) ==
      Group(rows, k, lo, hi, all) + (if Picks(row, k, lo, hi, all) then [row] else [])
  {
    assert (rows + [row])[..|rows|] == rows;
  }

  lemma {:induction false} GroupNonEmpty(rows: seq<Row>, k: Key, lo: nat, hi: nat, all: bool)
    ensures Group(rows, k, lo, hi, all) != [] <==> exists r :: r in rows && Picks(r, k, lo, hi, all)
  {
    if rows != [] {
      var before, last := rows[..|rows| - 1], rows[|rows| - 1];
      GroupNonEmpty(before, k, lo, hi, all);
      assert forall r :: r in rows <==> r in before || r == last;
    }
  }

  /** The row of a table under a key is the summary of the group, and exists if it is not empty. */
  lemma TokensAt(rows: seq<Row>, h: nat, t: string, lo: nat, hi: nat, all: bool)
    ensures var g := Group(rows, ByToken(h, t), lo, hi, all);
      && ((h, t) in TokensOf(rows, lo, hi, all) <==> g != [])
      && (g != [] ==> TokensOf(rows, lo, hi, all)[(h, t)] == TokenSummary(g))
  {
    GroupNonEmpty(rows, ByToken(h, t), lo, hi, all);
    if r :| r in rows && Picks(r, ByToken(h, t), lo, hi, all) {
      assert (HourOf(r.ts), r.token) in TokensOf(rows, lo, hi, all);
    }
    if (h, t) in TokensOf(rows, lo, hi, all) {
      var r :| r in rows && lo <= r.ts < hi && (all || !r.late) && (HourOf(r.ts), r.token) == (h, t);
      assert Picks(r, ByToken(h, t), lo, hi, all);
    }
  }

  lemma TeamsAt(rows: seq<Row>, h: nat, t: string, lo: nat, hi: nat, all: bool)
    ensures var g := Group(rows, ByTeam(h, t), lo, hi, all);
      && ((h, t) in TeamsOf(rows, lo, hi, all) <==> g != [])
      && (g != [] ==> TeamsOf(rows, lo, hi, all)[(h, t)] == TeamSummary(g))
  {
    GroupNonEmpty(rows, ByTeam(h, t), lo, hi, all);
    if r :| r in rows && Picks(r, ByTeam(h, t), lo, hi, all) {
      assert (HourOf(r.ts), r.team) in TeamsOf(rows, lo, hi, all);
    }
    if (h, t) in TeamsOf(rows, lo, hi, all) {
      var r :| r in rows && lo <= r.ts < hi && (all || !r.late) && (HourOf(r.ts), r.team) == (h, t);
      assert Picks(r, ByTeam(h, t), lo, hi, all);
    }
  }

  ghost predicate Boundary(lo: nat, m: nat, hi: nat) {
    lo <= m <= hi && (Aligned(m) || m == lo)
  }

  ghost predicate NoneLate(rows: seq<Row>, lo: nat, hi: nat) {
    forall i :: 0 <= i < |rows| && lo <= rows[i].ts < hi ==> !rows[i].late
  }

  /** A key is in at most one of two tables, and the whole has there what that one has. */
  ghost predicate TokenJoins(first: TokenTable, second: TokenTable, whole: TokenTable, k: (nat, string)) {
    && !(k in first && k in second)
    && (k in whole <==> k in first || k in second)
    && (k in first ==> whole[k] == first[k])
    && (k in second ==> whole[k] == second[k])
  }

  ghost predicate TeamJoins(first: TeamTable, second: TeamTable, whole: TeamTable, k: (nat, string)) {
    && !(k in first && k in second)
    && (k in whole <==> k in first || k in second)
    && (k in first ==> whole[k] == first[k])
    && (k in second ==> whole[k] == second[k])
  }

  /** The two halves of a range cut at a boundary join to the whole range. */
  lemma TokensHalves(rows: seq<Row>, h: nat, t: string, lo: nat, m: nat, hi: nat)
    requires Boundary(lo, m, hi) && NoneLate(rows, m, hi)
    ensures TokenJoins(TokensOf(rows, lo, m, false), TokensOf(rows, m, hi, true), TokensOf(rows, lo, hi, false), (h, t))
  {
    TokensAt(rows, h, t, lo, m, false);
    TokensAt(rows, h, t, m, hi, true);
    TokensAt(rows, h, t, lo, hi, false);
    GroupAllOnTime(rows, ByToken(h, t), m, hi);
    GroupAtBoundary(rows, ByToken(h, t), lo, m, hi, false);
  }

  lemma TeamsHalves(rows: seq<Row>, h: nat, t: string, lo: nat, m: nat, hi: nat)
    requires Boundary(lo, m, hi) && NoneLate(rows, m, hi)
    ensures TeamJoins(TeamsOf(rows, lo, m, false), TeamsOf(rows, m, hi, true), TeamsOf(rows, lo, hi, false), (h, t))
  {
    TeamsAt(rows, h, t, lo, m, false);
    TeamsAt(rows, h, t, m, hi, true);
    TeamsAt(rows, h, t, lo, hi, false);
    GroupAllOnTime(rows, ByTeam(h, t), m, hi);
    GroupAtBoundary(rows, ByTeam(h, t), lo, m, hi, false);
  }

  lemma JoinTokens(first: TokenTable, second: TokenTable, whole: TokenTable)
    requires forall k :: TokenJoins(first, second, whole, k)
    ensures first.Keys !! second.Keys
    ensures UpsertTokens(first, second) == whole
  {
    forall k: (nat, string) ensures !(k in first && k in second) && (k in whole <==> k in first || k in second) {
      assert TokenJoins(first, second, whole, k);
    }
    forall k | k in whole ensures UpsertTokens(first, second)[k] == whole[k] {
      assert TokenJoins(first, second, whole, k);
    }
  }

  lemma UpsertTokensMerges(rows: seq<Row>, lo: nat, m: nat, hi: nat)
    requires Boundary(lo, m, hi) && NoneLate(rows, m, hi)
    ensures TokensOf(rows, lo, m, false).Keys !! TokensOf(rows, m, hi, true).Keys
    ensures UpsertTokens(TokensOf(rows, lo, m, false), TokensOf(rows, m, hi, true)) == TokensOf(rows, lo, hi, false)
  {
    forall k: (nat, string)
      ensures TokenJoins(TokensOf(rows, lo, m, false), TokensOf(rows, m, hi, true), TokensOf(rows, lo, hi, false), k)
    {
      TokensHalves(rows, k.0, k.1, lo, m, hi);
    }
    JoinTokens(TokensOf(rows, lo, m, false), TokensOf(rows, m, hi, true), TokensOf(rows, lo, hi, false));
  }

  lemma JoinTeams(first: TeamTable, second: TeamTable, whole: TeamTable)
    requires forall k :: TeamJoins(first, second, whole, k)
    ensures first.Keys !! second.Keys
    ensures UpsertTeams(first, second) == whole
  {
    forall k: (nat, string) ensures !(k in first && k in second) && (k in whole <==> k in first || k in second) {
      assert TeamJoins(first, second, whole, k);
    }
    forall k | k in whole ensures UpsertTeams(first, second)[k] == whole[k] {
      assert TeamJoins(first, second, whole, k);
    }
  }

  lemma UpsertTeamsMerges(rows: seq<Row>, lo: nat, m: nat, hi: nat)
    requires Boundary(lo, m, hi) && NoneLate(rows, m, hi)
    ensures TeamsOf(rows, lo, m, false).Keys !! TeamsOf(rows, m, hi, true).Keys
    ensures UpsertTeams(TeamsOf(rows, lo, m, false), TeamsOf(rows, m, hi, true)) == TeamsOf(rows, lo, hi, false)
  {
    forall k: (nat, string)
      ensures TeamJoins(TeamsOf(rows, lo, m, false), TeamsOf(rows, m, hi, true), TeamsOf(rows, lo, hi, false), k)
    {
      TeamsHalves(rows, k.0, k.1, lo, m, hi);
    }
    JoinTeams(TeamsOf(rows, lo, m, false), TeamsOf(rows, m, hi, true), TeamsOf(rows, lo, hi, false));
  }

  /** Tables are equal if every group has the same rows. */
  lemma TokensSame(rows1: seq<Row>, rows2: seq<Row>, lo: nat, hi: nat, all1: bool, all2: bool)
    requires forall h, t :: Group(rows1, ByToken(h, t), lo, hi, all1) == Group(rows2, ByToken(h, t), lo, hi, all2)
    ensures TokensOf(rows1, lo, hi, all1) == TokensOf(rows2, lo, hi, all2)
  {
    var one, two := TokensOf(rows1, lo, hi, all1), TokensOf(rows2, lo, hi, all2);
    forall k: (nat, string) ensures (k in one <==> k in two) && (k in one ==> one[k] == two[k]) {
      TokensAt(rows1, k.0, k.1, lo, hi, all1);
      TokensAt(rows2, k.0, k.1, lo, hi, all2);
    }
  }

  lemma TeamsSame(rows1: seq<Row>, rows2: seq<Row>, lo: nat, hi: nat, all1: bool, all2: bool)
    requires forall h, t :: Group(rows1, ByTeam(h, t), lo, hi, all1) == Group(rows2, ByTeam(h, t), lo, hi, all2)
    ensures TeamsOf(rows1, lo, hi, all1) == TeamsOf(rows2, lo, hi, all2)
  {
    var one, two := TeamsOf(rows1, lo, hi, all1), TeamsOf(rows2, lo, hi, all2);
    forall k: (nat, string) ensures (k in one <==> k in two) && (k in one ==> one[k] == two[k]) {
      TeamsAt(rows1, k.0, k.1, lo, hi, all1);
      TeamsAt(rows2, k.0, k.1, lo, hi, all2);
    }
  }

  /** A row that is late, or past the range, changes neither table of the range. */
  lemma RowSkipped(rows: seq<Row>, row: Row, lo: nat, hi: nat)
    requires row.late || row.ts >= hi
    ensures TokensOf(rows + [row], lo, hi, false) == TokensOf(rows, lo, hi, false)
    ensures TeamsOf(rows + [row], lo, hi, false) == TeamsOf(rows, lo, hi, false)
  {
    forall k ensures Group(rows + [row], k, lo, hi, false) == Group(rows, k, lo, hi, false) {
      GroupNext(rows, row, k, lo, hi, false);
    }
    TokensSame(rows + [row], rows, lo, hi, false, false);
    TeamsSame(rows + [row], rows, lo, hi, false, false);
  }

  /** The hourly tables are the group-by of the on-time rows up to the cursor. */
  ghost predicate Exact(c0: nat, db: Db) {
    && db.tokens == TokensOf(db.rows, c0, db.cursor, false)
    && db.teams == TeamsOf(db.rows, c0, db.cursor, false)
    && c0 <= db.cursor && (db.cursor == c0 || Aligned(db.cursor))
    && LatePassed(db.rows, db.cursor)
  }

  ghost predicate LatePassed(rows: seq<Row>, cursor: nat) {
    forall i :: 0 <= i < |rows| && rows[i].late ==> rows[i].ts < cursor
  }

  lemma RunExact(c0: nat, db: Db, now: nat, commits: bool)
    requires Exact(c0, db)
    ensures Exact(c0, AfterRun(db, now, commits))
    ensures db.cursor <= AfterRun(db, now, commits).cursor
  {
    var end := HourOf(now);
    HourBounds(now);
    if db.cursor < end {
      UpsertTokensMerges(db.rows, c0, db.cursor, end);
      UpsertTeamsMerges(db.rows, c0, db.cursor, end);
    }
  }

  lemma InsertExact(c0: nat, db: Db, row: Row)
    requires Exact(c0, db)
    ensures Exact(c0, AfterInsert(db, row))
  {
    var row' := row.(late := row.ts < db.cursor);
    RowSkipped(db.rows, row', c0, db.cursor);
    LateNext(db.rows, db.cursor, row');
  }

  lemma LateNext(rows: seq<Row>, cursor: nat, row: Row)
    requires LatePassed(rows, cursor) && (row.late ==> row.ts < cursor)
    ensures LatePassed(rows + [row], cursor)
  {}

  lemma StartExact(c0: nat)
    ensures Exact(c0, Db([], map[], map[], c0))
  {
    assert TokensOf([], c0, c0, false) == map[] && TeamsOf([], c0, c0, false) == map[];
  }

  /** MAIN RESULT: after any interleaving of inserts, committed, crashed and aborted runs the
      hourly tables equal the one-shot group-by of every row that became visible before the
      cursor passed it: nothing is counted twice, nothing outside [c0, cursor) is counted. */
  lemma {:induction false} ExactlyOnce(c0: nat, steps: seq<Step>)
    ensures Exact(c0, After(c0, steps))
  {
    if steps == [] {
      StartExact(c0);
    } else {
      var db := After(c0, steps[..|steps| - 1]);
      ExactlyOnce(c0, steps[..|steps| - 1]);
      match steps[|steps| - 1]
      case Insert(row) =>
        InsertExact(c0, db, row);
      case Run(now, commits) => RunExact(c0, db, now, commits);
    }
  }

  /** The conflict branch never fires: an hour is written by exactly one committed run, which
      is why adding up distinct-token counts does not overcount. */
  lemma NeverConflicts(c0: nat, steps: seq<Step>, now: nat)
    requires After(c0, steps).cursor < HourOf(now)
    ensures var db := After(c0, steps);
      && db.tokens.Keys !! TokensOf(db.rows, db.cursor, HourOf(now), true).Keys
      && db.teams.Keys !! TeamsOf(db.rows, db.cursor, HourOf(now), true).Keys
  {
    var db := After(c0, steps);
    ExactlyOnce(c0, steps);
    UpsertTokensMerges(db.rows, c0, db.cursor, HourOf(now));
    UpsertTeamsMerges(db.rows, c0, db.cursor, HourOf(now));
  }

  lemma {:induction false} CursorNeverBack(c0: nat, steps: seq<Step>, n: nat)
    requires n <= |steps|
    ensures After(c0, steps[..n]).cursor <= After(c0, steps).cursor
  {
    if n < |steps| {
      CursorNeverBack(c0, steps[..|steps| - 1], n);
      assert steps[..|steps| - 1][..n] == steps[..n];
    } else {
      assert steps[..n] == steps;
    }
  }

  // ---- what one row adds ----

  /** `now` is `was` with one request more in the entry of the row's hour and token, and the
      same everywhere else. */
  ghost predicate TokenAdded(was: TokenTable, now: TokenTable, row: Row) {
    var key := (row.ts / 3_600_000_000 * 3_600_000_000, row.token);
    && key in now
    && now.Keys == was.Keys + {key}
    && (forall k :: k in was && k != key ==> now[k] == was[k])
    && (key !in was ==> now[key] == TokenUsage(row.team, 1, row.prompt, row.completion, row.cost))
    && (key in was ==>
        && now[key].team == was[key].team
        && now[key].requests == was[key].requests + 1
        && now[key].prompt == was[key].prompt + row.prompt
        && now[key].completion == was[key].completion + row.completion
        && now[key].cost == was[key].cost + row.cost)
  }

  /** The same of teams; `known` says whether the row's token was active there before. */
  ghost predicate TeamAdded(was: TeamTable, now: TeamTable, row: Row, known: bool) {
    var key := (row.ts / 3_600_000_000 * 3_600_000_000, row.team);
    && key in now
    && now.Keys == was.Keys + {key}
    && (forall k :: k in was && k != key ==> now[k] == was[k])
    && (key !in was ==> !known && now[key] == TeamUsage(1, row.prompt, row.completion, 1, row.cost))
    && (key in was ==>
        && now[key].requests == was[key].requests + 1
        && now[key].prompt == was[key].prompt + row.prompt
        && now[key].completion == was[key].completion + row.completion
        && now[key].activeTokens == was[key].activeTokens + (if known then 0 else 1)
        && now[key].cost == was[key].cost + row.cost)
  }

  /** An earlier row of the range has the row's hour, team and token. */
  ghost predicate Known(rows: seq<Row>, row: Row, lo: nat, hi: nat, all: bool) {
    exists r :: r in rows && lo <= r.ts < hi && (all || !r.late) && r.team == row.team && r.token == row.token
      && r.ts / 3_600_000_000 == row.ts / 3_600_000_000
  }

  lemma SumsNext(g: seq<Row>, row: Row)
    ensures SumPrompt(g + [row]) == SumPrompt(g) + row.prompt
    ensures SumCompletion(g + [row]) == SumCompletion(g) + row.completion
    ensures SumCost(g + [row]) == SumCost(g) + row.cost
  {
    assert (g + [row])[..|g|] == g;
  }

  lemma ActiveNext(g: seq<Row>, row: Row)
    ensures var n, m := |set r | r in g :: r.token|, |set r | r in g + [row] :: r.token|;
      m == n + if exists r :: r in g && r.token == row.token then 0 else 1
  {
    var was, now := set r | r in g :: r.token, set r | r in g + [row] :: r.token;
    assert forall r :: r in g + [row] <==> r in g || r == row;
    assert now == was + {row.token};
    assert row.token in was <==> exists r :: r in g && r.token == row.token;
  }

  function TokenEntry(table: TokenTable, k: (nat, string)): Option<TokenUsage> {
    if k in table then Some(table[k]) else None
  }

  function TeamEntry(table: TeamTable, k: (nat, string)): Option<TeamUsage> {
    if k in table then Some(table[k]) else None
  }

  /** An entry with one more row. */
  function TokenPlus(was: Option<TokenUsage>, row: Row): TokenUsage {
    match was
    case None => TokenUsage(row.team, 1, row.prompt, row.completion, row.cost)
    case Some(e) => TokenUsage(e.team, e.requests + 1, e.prompt + row.prompt, e.completion + row.completion, e.cost + row.cost)
  }

  function TeamPlus(was: Option<TeamUsage>, row: Row, known: bool): TeamUsage {
    match was
    case None => TeamUsage(1, row.prompt, row.completion, 1, row.cost)
    case Some(e) => TeamUsage(e.requests + 1, e.prompt + row.prompt, e.completion + row.completion,
                              e.activeTokens + (if known then 0 else 1), e.cost + row.cost)
  }

  ghost predicate ActiveIn(g: seq<Row>, token: string) {
    exists r :: r in g && r.token == token
  }

  lemma TokenSummaryNext(g: seq<Row>, row: Row)
    ensures TokenSummary(g + [row]) == TokenPlus(if g == [] then None else Some(TokenSummary(g)), row)
  {
    SumsNext(g, row);
  }

  lemma TeamSummaryNext(g: seq<Row>, row: Row)
    ensures TeamSummary(g + [row]) ==
      TeamPlus(if g == [] then None else Some(TeamSummary(g)), row, ActiveIn(g, row.token))
  {
    SumsNext(g, row);
    ActiveNext(g, row);
  }

  lemma TokenEntryIs(rows: seq<Row>, h: nat, t: string, lo: nat, hi: nat, all: bool)
    ensures var g := Group(rows, ByToken(h, t), lo, hi, all);
      TokenEntry(TokensOf(rows, lo, hi, all), (h, t)) == if g == [] then None else Some(TokenSummary(g))
  {
    TokensAt(rows, h, t, lo, hi, all);
  }

  lemma TeamEntryIs(rows: seq<Row>, h: nat, t: string, lo: nat, hi: nat, all: bool)
    ensures var g := Group(rows, ByTeam(h, t), lo, hi, all);
      TeamEntry(TeamsOf(rows, lo, hi, all), (h, t)) == if g == [] then None else Some(TeamSummary(g))
  {
    TeamsAt(rows, h, t, lo, hi, all);
  }

  lemma TokenEntryNext(rows: seq<Row>, row: Row, h: nat, t: string, lo: nat, hi: nat, all: bool)
    ensures TokenEntry(TokensOf(rows + [row], lo, hi, all), (h, t)) ==
      if Picks(row, ByToken(h, t), lo, hi, all) then Some(TokenPlus(TokenEntry(TokensOf(rows, lo, hi, all), (h, t)), row))
      else TokenEntry(TokensOf(rows, lo, hi, all), (h, t))
  {
    var g := Group(rows, ByToken(h, t), lo, hi, all);
    TokenEntryIs(rows, h, t, lo, hi, all);
    TokenEntryIs(rows + [row], h, t, lo, hi, all);
    GroupNext(rows, row, ByToken(h, t), lo, hi, all);
    TokenSummaryNext(g, row);
    assert g + [] == g;
  }

  lemma TeamEntryNext(rows: seq<Row>, row: Row, h: nat, t: string, lo: nat, hi: nat, all: bool)
    ensures TeamEntry(TeamsOf(rows + [row], lo, hi, all), (h, t)) ==
      if Picks(row, ByTeam(h, t), lo, hi, all)
      then Some(TeamPlus(TeamEntry(TeamsOf(rows, lo, hi, all), (h, t)), row,
                         ActiveIn(Group(rows, ByTeam(h, t), lo, hi, all), row.token)))
      else TeamEntry(TeamsOf(rows, lo, hi, all), (h, t))
  {
    var g := Group(rows, ByTeam(h, t), lo, hi, all);
    TeamEntryIs(rows, h, t, lo, hi, all);
    TeamEntryIs(rows + [row], h, t, lo, hi, all);
    GroupNext(rows, row, ByTeam(h, t), lo, hi, all);
    TeamSummaryNext(g, row);
    assert g + [] == g;
  }

  lemma {:induction false} GroupMembers(rows: seq<Row>, k: Key, lo: nat, hi: nat, all: bool, r: Row)
    ensures r in Group(rows, k, lo, hi, all) <==> r in rows && Picks(r, k, lo, hi, all)
  {
    if rows != [] {
      var before, last := rows[..|rows| - 1], rows[|rows| - 1];
      GroupMembers(before, k, lo, hi, all, r);
      assert r in rows <==> r in before || r == last;
    }
  }

  lemma KnownIsActive(rows: seq<Row>, row: Row, lo: nat, hi: nat, all: bool)
    ensures Known(rows, row, lo, hi, all) <==> ActiveIn(Group(rows, ByTeam(HourOf(row.ts), row.team), lo, hi, all), row.token)
  {
    var k := ByTeam(HourOf(row.ts), row.team);
    forall r: Row ensures r in Group(rows, k, lo, hi, all) <==>
      r in rows && lo <= r.ts < hi && (all || !r.late) && r.team == row.team && r.ts / 3_600_000_000 == row.ts / 3_600_000_000
    {
      GroupMembers(rows, k, lo, hi, all, r);
      SameHour(r.ts, row.ts);
    }
  }

  lemma SameHour(a: nat, b: nat)
    ensures HourOf(a) == HourOf(b) <==> a / 3_600_000_000 == b / 3_600_000_000
  {}

  /** MAIN RESULT (sums): a row that is counted adds one request, its tokens and its cost to
      the entry of its hour and token, and to that of its hour and team, where it adds an
      active token exactly if that token is new there.  No other entry changes. */
  lemma RowAdds(rows: seq<Row>, row: Row, lo: nat, hi: nat, all: bool)
    requires lo <= row.ts < hi && (all || !row.late)
    ensures TokenAdded(TokensOf(rows, lo, hi, all), TokensOf(rows + [row], lo, hi, all), row)
    ensures TeamAdded(TeamsOf(rows, lo, hi, all), TeamsOf(rows + [row], lo, hi, all), row, Known(rows, row, lo, hi, all))
  {
    RowAddsToken(rows, row, lo, hi, all);
    RowAddsTeam(rows, row, lo, hi, all);
  }

  lemma TokenAddedAt(was: TokenTable, now: TokenTable, row: Row, key: (nat, string))
    requires key == (row.ts / 3_600_000_000 * 3_600_000_000, row.token)
    requires forall k :: TokenEntry(now, k) == if k == key then Some(TokenPlus(TokenEntry(was, k), row)) else TokenEntry(was, k)
    ensures TokenAdded(was, now, row)
  {
    forall k: (nat, string) ensures k in now <==> TokenEntry(now, k).Some? {}
    forall k: (nat, string) ensures k in now <==> k in was.Keys + {key} {
      assert TokenEntry(now, k) == if k == key then Some(TokenPlus(TokenEntry(was, k), row)) else TokenEntry(was, k);
    }
    forall k | k in was && k != key ensures now[k] == was[k] {
      assert TokenEntry(now, k) == TokenEntry(was, k);
    }
  }

  lemma TeamAddedAt(was: TeamTable, now: TeamTable, row: Row, key: (nat, string), known: bool)
    requires key == (row.ts / 3_600_000_000 * 3_600_000_000, row.team) && (known ==> key in was)
    requires forall k :: TeamEntry(now, k) == if k == key then Some(TeamPlus(TeamEntry(was, k), row, known)) else TeamEntry(was, k)
    ensures TeamAdded(was, now, row, known)
  {
    forall k: (nat, string) ensures k in now <==> TeamEntry(now, k).Some? {}
    forall k: (nat, string) ensures k in now <==> k in was.Keys + {key} {
      assert TeamEntry(now, k) == if k == key then Some(TeamPlus(TeamEntry(was, k), row, known)) else TeamEntry(was, k);
    }
    forall k | k in was && k != key ensures now[k] == was[k] {
      assert TeamEntry(now, k) == TeamEntry(was, k);
    }
  }

  lemma PickedAtHour(row: Row, h: nat, t: string, lo: nat, hi: nat, all: bool)
    requires lo <= row.ts < hi && (all || !row.late)
    ensures Picks(row, ByToken(h, t), lo, hi, all) <==> (h, t) == (row.ts / 3_600_000_000 * 3_600_000_000, row.token)
    ensures Picks(row, ByTeam(h, t), lo, hi, all) <==> (h, t) == (row.ts / 3_600_000_000 * 3_600_000_000, row.team)
  {}

  lemma RowAddsToken(rows: seq<Row>, row: Row, lo: nat, hi: nat, all: bool)
    requires lo <= row.ts < hi && (all || !row.late)
    ensures TokenAdded(TokensOf(rows, lo, hi, all), TokensOf(rows + [row], lo, hi, all), row)
  {
    var was, now := TokensOf(rows, lo, hi, all), TokensOf(rows + [row], lo, hi, all);
    var key := (row.ts / 3_600_000_000 * 3_600_000_000, row.token);
    forall k: (nat, string)
      ensures TokenEntry(now, k) == if k == key then Some(TokenPlus(TokenEntry(was, k), row)) else TokenEntry(was, k)
    {
      PickedAtHour(row, k.0, k.1, lo, hi, all);
      TokenEntryNext(rows, row, k.0, k.1, lo, hi, all);
    }
    TokenAddedAt(was, now, row, key);
  }

  lemma RowAddsTeam(rows: seq<Row>, row: Row, lo: nat, hi: nat, all: bool)
    requires lo <= row.ts < hi && (all || !row.late)
    ensures TeamAdded(TeamsOf(rows, lo, hi, all), TeamsOf(rows + [row], lo, hi, all), row, Known(rows, row, lo, hi, all))
  {
    var was, now := TeamsOf(rows, lo, hi, all), TeamsOf(rows + [row], lo, hi, all);
    var key := (row.ts / 3_600_000_000 * 3_600_000_000, row.team);
    var known := Known(rows, row, lo, hi, all);
    KnownIsActive(rows, row, lo, hi, all);
    TeamEntryIs(rows, key.0, key.1, lo, hi, all);
    forall k: (nat, string)
      ensures TeamEntry(now, k) == if k == key then Some(TeamPlus(TeamEntry(was, k), row, known)) else TeamEntry(was, k)
    {
      PickedAtHour(row, k.0, k.1, lo, hi, all);
      TeamEntryNext(rows, row, k.0, k.1, lo, hi, all);
    }
    TeamAddedAt(was, now, row, key, known);
  }

  lemma AfterNext(c0: nat, steps: seq<Step>, step: Step)
    ensures After(c0, steps + [step]) ==
      if step.Insert? then AfterInsert(After(c0, steps), step.row) else AfterRun(After(c0, steps), step.now, step.commits)
  {
    assert (steps + [step])[..|steps|] == steps;
  }

  lemma ClashLess(rows: seq<Row>, row: Row, lo: nat, hi: nat)
    requires Clash(rows, lo, hi)
    ensures Clash(rows + [row], lo, hi)
  {
    var i, j :| 0 <= i < |rows| && 0 <= j < |rows| && lo <= rows[i].ts < hi && lo <= rows[j].ts < hi
      && HourOf(rows[i].ts) == HourOf(rows[j].ts) && rows[i].token == rows[j].token && rows[i].team != rows[j].team;
    var rows' := rows + [row];
    assert rows'[i] == rows[i] && rows'[j] == rows[j];
  }

  /** A clean committed run leaves the group-by of the on-time rows up to its hour. */
  lemma RunTables(c0: nat, steps: seq<Step>, now: nat)
    requires var db := After(c0, steps); db.cursor < HourOf(now) && !Clash(db.rows, db.cursor, HourOf(now))
    ensures var db, after := After(c0, steps), After(c0, steps + [Run(now, true)]);
      && after.rows == db.rows
      && after.tokens == TokensOf(db.rows, c0, HourOf(now), false)
      && after.teams == TeamsOf(db.rows, c0, HourOf(now), false)
  {
    AfterNext(c0, steps, Run(now, true));
    ExactlyOnce(c0, steps + [Run(now, true)]);
  }

  /** A run that crashes, clashes, or comes before the next full hour changes nothing. */
  lemma RunFails(db: Db, now: nat, commits: bool)
    requires !commits || now / 3_600_000_000 * 3_600_000_000 <= db.cursor || Clash(db.rows, db.cursor, HourOf(now))
    ensures AfterRun(db, now, commits) == db
  {}

  /** MAIN RESULT (sums of a run): recording one more request before a committed run adds
      exactly that request to both hourly tables. */
  lemma RequestIsCounted(c0: nat, steps: seq<Step>, row: Row, now: nat)
    requires !row.late && After(c0, steps).cursor <= row.ts < HourOf(now)
    requires !Clash(After(c0, steps).rows + [row], After(c0, steps).cursor, HourOf(now))
    ensures var without := After(c0, steps + [Run(now, true)]);
      var counted := After(c0, steps + [Insert(row)] + [Run(now, true)]);
      && TokenAdded(without.tokens, counted.tokens, row)
      && TeamAdded(without.teams, counted.teams, row, Known(without.rows, row, c0, HourOf(now), false))
  {
    var db := After(c0, steps);
    if Clash(db.rows, db.cursor, HourOf(now)) { ClashLess(db.rows, row, db.cursor, HourOf(now)); }
    RunTables(c0, steps, now);
    InsertedRow(c0, steps, row);
    RunTables(c0, steps + [Insert(row)], now);
    RowAdds(db.rows, row, c0, HourOf(now), false);
  }

  lemma InsertedRow(c0: nat, steps: seq<Step>, row: Row)
    requires !row.late && After(c0, steps).cursor <= row.ts
    ensures var db, after := After(c0, steps), After(c0, steps + [Insert(row)]);
      c0 <= db.cursor && after.cursor == db.cursor && after.rows == db.rows + [row]
  {
    AfterNext(c0, steps, Insert(row));
    ExactlyOnce(c0, steps);
  }

  /** On conflict, which never happens (NeverConflicts), the upserts would add up. */
  lemma UpsertsAdd(tokens: TokenTable, dt: TokenTable, teams: TeamTable, dm: TeamTable, k: (nat, string))
    requires k in tokens && k in dt && k in teams && k in dm
    ensures var u := UpsertTokens(tokens, dt);
      && k in u && u[k].team == tokens[k].team && u[k].requests == tokens[k].requests + dt[k].requests
      && u[k].prompt == tokens[k].prompt + dt[k].prompt && u[k].completion == tokens[k].completion + dt[k].completion
      && u[k].cost == tokens[k].cost + dt[k].cost
    ensures var u := UpsertTeams(teams, dm);
      && k in u && u[k].requests == teams[k].requests + dm[k].requests
      && u[k].prompt == teams[k].prompt + dm[k].prompt && u[k].completion == teams[k].completion + dm[k].completion
      && u[k].activeTokens == teams[k].activeTokens + dm[k].activeTokens && u[k].cost == teams[k].cost + dm[k].cost
  {}

  /** A run fails exactly when the rows of some hour and token name two teams. */
  lemma ClashMeans(rows: seq<Row>, lo: nat, hi: nat)
    ensures Clash(rows, lo, hi) <==>
      exists r1, r2 :: r1 in rows && r2 in rows && lo <= r1.ts < hi && lo <= r2.ts < hi
        && r1.ts / 3_600_000_000 == r2.ts / 3_600_000_000 && r1.token == r2.token && r1.team != r2.team
  {
    forall a: nat, b: nat ensures HourOf(a) == HourOf(b) <==> a / 3_600_000_000 == b / 3_600_000_000 { SameHour(a, b); }
  }

  // ---- late rows ----

  lemma {:induction false} GroupShrinks(rows: seq<Row>, k: Key, lo: nat, hi: nat)
    ensures |Group(rows, k, lo, hi, false)| <= |Group(rows, k, lo, hi, true)|
    ensures (exists r :: r in rows && r.late && Picks(r, k, lo, hi, true)) ==>
      |Group(rows, k, lo, hi, false)| < |Group(rows, k, lo, hi, true)|
  {
    if rows != [] {
      var before, last := rows[..|rows| - 1], rows[|rows| - 1];
      GroupShrinks(before, k, lo, hi);
      assert forall r :: r in rows <==> r in before || r == last;
    }
  }

  /** MAIN RESULT (exact condition): each hourly table equals the group-by of all rows in
      [c0, cursor) if and only if none of those rows became visible after the cursor had
      passed it.  A late row is never counted. */
  lemma CountsAllExactly(c0: nat, steps: seq<Step>)
    ensures var db := After(c0, steps);
      && (db.tokens == TokensOf(db.rows, c0, db.cursor, true) <==> NoneLate(db.rows, c0, db.cursor))
      && (db.teams == TeamsOf(db.rows, c0, db.cursor, true) <==> NoneLate(db.rows, c0, db.cursor))
  {
    var db := After(c0, steps);
    ExactlyOnce(c0, steps);
    if NoneLate(db.rows, c0, db.cursor) {
      AllOnTime(db.rows, c0, db.cursor);
    } else {
      var i :| 0 <= i < |db.rows| && c0 <= db.rows[i].ts < db.cursor && db.rows[i].late;
      LateTokenMissing(db.rows, c0, db.cursor, db.rows[i]);
      LateTeamMissing(db.rows, c0, db.cursor, db.rows[i]);
    }
  }

  lemma AllOnTime(rows: seq<Row>, lo: nat, hi: nat)
    requires NoneLate(rows, lo, hi)
    ensures TokensOf(rows, lo, hi, false) == TokensOf(rows, lo, hi, true)
    ensures TeamsOf(rows, lo, hi, false) == TeamsOf(rows, lo, hi, true)
  {
    forall k ensures Group(rows, k, lo, hi, false) == Group(rows, k, lo, hi, true) { GroupAllOnTime(rows, k, lo, hi); }
    TokensSame(rows, rows, lo, hi, false, true);
    TeamsSame(rows, rows, lo, hi, false, true);
  }

  lemma LateTokenMissing(rows: seq<Row>, lo: nat, hi: nat, r: Row)
    requires r in rows && r.late && lo <= r.ts < hi
    ensures TokensOf(rows, lo, hi, false) != TokensOf(rows, lo, hi, true)
  {
    var k := ByToken(HourOf(r.ts), r.token);
    assert Picks(r, k, lo, hi, true);
    GroupShrinks(rows, k, lo, hi);
    TokensAt(rows, k.hour, k.token, lo, hi, false);
    TokensAt(rows, k.hour, k.token, lo, hi, true);
  }

  lemma LateTeamMissing(rows: seq<Row>, lo: nat, hi: nat, r: Row)
    requires r in rows && r.late && lo <= r.ts < hi
    ensures TeamsOf(rows, lo, hi, false) != TeamsOf(rows, lo, hi, true)
  {
    var k := ByTeam(HourOf(r.ts), r.team);
    assert Picks(r, k, lo, hi, true);
    GroupShrinks(rows, k, lo, hi);
    TeamsAt(rows, k.hour, k.team, lo, hi, false);
    TeamsAt(rows, k.hour, k.team, lo, hi, true);
  }

  // ---- a token that changed teams ----

  /** Two rows of one hour and token under different teams, both still to be aggregated. */
  ghost predicate Poisoned(db: Db, i: nat, j: nat) {
    && i < |db.rows| && j < |db.rows|
    && db.cursor <= db.rows[i].ts && db.cursor <= db.rows[j].ts
    && HourOf(db.rows[i].ts) == HourOf(db.rows[j].ts)
    && db.rows[i].token == db.rows[j].token && db.rows[i].team != db.rows[j].team
  }

  function Continue(db: Db, steps: seq<Step>): Db {
    if steps == [] then db else
      var d := Continue(db, steps[..|steps| - 1]);
      match steps[|steps| - 1]
      case Insert(row) => AfterInsert(d, row)
      case Run(now, commits) => AfterRun(d, now, commits)
  }

  /** If a token changes teams within an hour, no run ever gets past that hour: aggregation
      stops there for good, for every token. */
  lemma {:induction false} ClashStopsAggregation(db: Db, steps: seq<Step>, i: nat, j: nat)
    requires Poisoned(db, i, j)
    ensures var d := Continue(db, steps);
      && Poisoned(d, i, j)
      && |d.rows| >= |db.rows| && d.rows[i] == db.rows[i] && d.rows[j] == db.rows[j]
      && (d.cursor == db.cursor || d.cursor <= HourOf(db.rows[i].ts))
  {
    if steps != [] {
      ClashStopsAggregation(db, steps[..|steps| - 1], i, j);
      var d := Continue(db, steps[..|steps| - 1]);
      if steps[|steps| - 1].Run? { ClashBlocks(d, steps[|steps| - 1].now, steps[|steps| - 1].commits, i, j); }
    }
  }

  lemma ClashBlocks(d: Db, now: nat, commits: bool, i: nat, j: nat)
    requires Poisoned(d, i, j)
    ensures var d' := AfterRun(d, now, commits);
      && d'.rows == d.rows && Poisoned(d', i, j)
      && (d'.cursor == d.cursor || d'.cursor <= HourOf(d.rows[i].ts))
  {
    var end := HourOf(now);
    HourBounds(now);
    HourBounds(d.rows[i].ts);
    HourBounds(d.rows[j].ts);
    AlignedSeparates(d.rows[i].ts, end);
    AlignedSeparates(d.rows[j].ts, end);
  }

  /** Step k is a run that gets to `end` or beyond: it commits, it is late enough, and no
      token has two teams within an hour among the rows it would process. */
  ghost predicate RunPasses(db: Db, steps: seq<Step>, k: nat, end: nat)
    requires k < |steps|
  {
    var d := Continue(db, steps[..k]);
    && steps[k].Run? && steps[k].commits && end <= HourOf(steps[k].now)
    && !Clash(d.rows, d.cursor, HourOf(steps[k].now))
  }

  /** Along every history the cursor passes `end` exactly when one of its runs does. */
  lemma {:induction false} PassesExactly(db: Db, steps: seq<Step>, end: nat)
    ensures Continue(db, steps).cursor >= end <==>
      db.cursor >= end || exists k :: 0 <= k < |steps| && RunPasses(db, steps, k, end)
  {
    if steps != [] {
      var before := steps[..|steps| - 1];
      PassesExactly(db, before, end);
      forall k | 0 <= k < |before| ensures RunPasses(db, before, k, end) == RunPasses(db, steps, k, end) {
        assert before[..k] == steps[..k];
      }
      LastStepPasses(Continue(db, before), steps[|steps| - 1], end);
      assert RunPasses(db, steps, |before|, end) <==> StepPasses(Continue(db, before), steps[|steps| - 1], end);
    }
  }

  ghost predicate StepPasses(d: Db, step: Step, end: nat) {
    step.Run? && step.commits && end <= HourOf(step.now) && !Clash(d.rows, d.cursor, HourOf(step.now))
  }

  lemma LastStepPasses(d: Db, step: Step, end: nat)
    ensures var d' := if step.Insert? then AfterInsert(d, step.row) else AfterRun(d, step.now, step.commits);
      d'.cursor >= end <==> d.cursor >= end || StepPasses(d, step, end)
  {}

  /** Some history leads the cursor to `end` or beyond. */
  ghost predicate CanPass(db: Db, end: nat) {
    exists steps :: Continue(db, steps).cursor >= end
  }

  /** MAIN RESULT (exact condition): aggregation can still get past the end of an hour if
      and only if no token has two teams within one hour among the visible rows up to there
      that are not yet processed. */
  lemma CanPassExactly(db: Db, end: nat)
    requires Aligned(end) && db.cursor < end
    ensures CanPass(db, end) <==> !Clash(db.rows, db.cursor, end)
  {
    if Clash(db.rows, db.cursor, end) {
      forall steps ensures Continue(db, steps).cursor < end { ClashBars(db, steps, end); }
    } else {
      CleanRunPasses(db, end);
    }
  }

  lemma ClashBars(db: Db, steps: seq<Step>, end: nat)
    requires Aligned(end) && db.cursor < end && Clash(db.rows, db.cursor, end)
    ensures Continue(db, steps).cursor < end
  {
    var i, j :| 0 <= i < |db.rows| && 0 <= j < |db.rows|
      && db.cursor <= db.rows[i].ts < end && db.cursor <= db.rows[j].ts < end
      && HourOf(db.rows[i].ts) == HourOf(db.rows[j].ts) && db.rows[i].token == db.rows[j].token
      && db.rows[i].team != db.rows[j].team;
    HourBounds(db.rows[i].ts);
    ClashStopsAggregation(db, steps, i, j);
  }

  lemma CleanRunPasses(db: Db, end: nat)
    requires Aligned(end) && !Clash(db.rows, db.cursor, end)
    ensures CanPass(db, end)
  {
    var run := Run(end, true);
    var steps := [] + [run];
    assert HourOf(end) == end;
    LastStepPasses(db, run, end);
    assert steps[..|steps| - 1] == [] && Continue(db, []) == db;
    assert Continue(db, steps).cursor >= end;
  }

  /** The row of one recorded request; a request without a token hash is stored under "". */
  function RequestRow(ts: nat, token: Option<string>, team: string, prompt: nat, completion: nat,
                      promptPrice: real, completionPrice: real): Row {
    Row(ts, if token.Some? then token.value else "", team, prompt, completion,
        prompt as real / 1_000_000.0 * promptPrice + completion as real / 1_000_000.0 * completionPrice, false)
  }

  /** A million tokens of a kind cost its price. */
  lemma CostIs(ts: nat, token: Option<string>, team: string, prompt: nat, completion: nat, promptPrice: real, completionPrice: real)
    ensures var row := RequestRow(ts, token, team, prompt, completion, promptPrice, completionPrice);
      row.cost * 1_000_000.0 == prompt as real * promptPrice + completion as real * completionPrice
  {
    Scaled(prompt as real, promptPrice);
    Scaled(completion as real, completionPrice);
  }

  lemma Scaled(tokens: real, price: real)
    ensures tokens / 1_000_000.0 * price * 1_000_000.0 == tokens * price
  {}

  /** The row of some request recorded without a token hash. */
  ghost predicate IsHashless(r: Row) {
    exists promptPrice, completionPrice ::
      r == RequestRow(r.ts, None, r.team, r.prompt, r.completion, promptPrice, completionPrice)
  }

  /** Two such requests, of two teams within one hour, are enough to stop aggregation there. */
  lemma HashlessRequestsClash(db: Db, r1: Row, r2: Row, end: nat)
    requires IsHashless(r1) && IsHashless(r2) && r1.team != r2.team && HourOf(r1.ts) == HourOf(r2.ts)
    requires Aligned(end) && db.cursor <= r1.ts < end && db.cursor <= r2.ts < end
    ensures !CanPass(AfterInsert(AfterInsert(db, r1), r2), end)
  {
    var d := AfterInsert(AfterInsert(db, r1), r2);
    var n := |db.rows|;
    assert d.rows[n] == r1.(late := r1.ts < db.cursor) && d.rows[n + 1] == r2.(late := r2.ts < db.cursor);
    assert Clash(d.rows, d.cursor, end);
    CanPassExactly(d, end);
  }

  // ---- the writer ----

  class StatsWriter {
    var rows: seq<Row>
    var tokens: TokenTable
    var teams: TeamTable
    var cursor: nat

    function State(): Db
      reads this
    {
      Db(rows, tokens, teams, cursor)
    }

    constructor (c0: nat)
      ensures State() == After(c0, [])
    {
      rows, tokens, teams, cursor := [], map[], map[], c0;
    }

    method RecordRequest(ts: nat, token: Option<string>, team: string, prompt: nat, completion: nat,
                         promptPrice: real, completionPrice: real)
      modifies this`rows
      ensures State() == AfterInsert(old(State()), RequestRow(ts, token, team, prompt, completion, promptPrice, completionPrice))
    {
      var hash := if token.Some? then token.value else "";
      var cost := prompt as real / 1_000_000.0 * promptPrice + completion as real / 1_000_000.0 * completionPrice;
      rows := rows + [Row(ts, hash, team, prompt, completion, cost, ts < cursor)];
    }

    /** One run; `commits` is false if the process or the connection dies before COMMIT. */
    method RunAggregation(now: nat, commits: bool)
      modifies this
      ensures State() == AfterRun(old(State()), now, commits)
    {
      ghost var was := State();
      var lastTs := cursor;
      var endTs := HourOf(now);
      if lastTs >= endTs {
        return;
      }
      // the transaction works on its own copies until COMMIT
      var aborted := Clash(rows, lastTs, endTs);
      var newTokens := UpsertTokens(tokens, TokensOf(rows, lastTs, endTs, true));
      var newTeams := UpsertTeams(teams, TeamsOf(rows, lastTs, endTs, true));
      if !aborted && commits {
        tokens, teams, cursor := newTokens, newTeams, endTs;
        assert State() == Committed(was, endTs);
      }
    }
  }
}
