/** Delivery cost in `bbs_report.rs`: cumulative usage rows grouped into segments,
    the finality of each segment, the totals, and the launch attempts. */
module DeliveryCost {
  import opened Basics
  import opened EvidenceRecords
  import opened StableSort
  import opened TupleCapture
  import opened EvidenceIndex

  const TERMINAL_USAGE_STATES := {"completed", "failed", "stopped"}
  const FINAL_COST_COVERAGE := "final"
  const PROVIDER_COST_BASIS := "provider_reported_segment_total"
  const DAEMON_COST_BASIS := "daemon_priced_increments"

  /** One provider session of one launch: its usage rows are cumulative. */
  datatype Segment = Segment(spawn: string, session: string, providerSession: Option<string>)

  datatype Task = Task(repo: string, task: string)

  // ----- the last row of a segment ----------------------------------------------------------

  predicate Belongs(u: UsageRow, task: Task, s: Segment) {
    u.repo == task.repo && u.task == task.task && Segment(u.spawn, u.session, u.providerSession) == s
  }

  function RowsOf(usage: seq<UsageRow>, task: Task, s: Segment): seq<UsageRow> {
    if usage == [] then []
    else
      var n := |usage| - 1;
      RowsOf(usage[..n], task, s) + if Belongs(usage[n], task, s) then [usage[n]] else []
  }

  function Segments(usage: seq<UsageRow>, task: Task): set<Segment> {
    set u | u in usage && u.repo == task.repo && u.task == task.task :: Segment(u.spawn, u.session, u.providerSession)
  }

  predicate Earlier(a: Option<Time>, b: Option<Time>) {
    b.Some? && (a.None? || a.value < b.value)
  }

  const BY_POSITION: (UsageRow, UsageRow) -> bool :=
    (a: UsageRow, b: UsageRow) => a.position < b.position || (a.position == b.position && Less(a.record, b.record))

  const BY_OBSERVATION: (UsageRow, UsageRow) -> bool :=
    (a: UsageRow, b: UsageRow) => Earlier(a.observedAt, b.observedAt)
        || (a.observedAt == b.observedAt && Less(a.record, b.record))

  /** Which row is last is a question of persistence order; only without one do
      the producer's times decide. */
  function LastRow(order: Order, rows: seq<UsageRow>): UsageRow
    requires rows != []
  {
    var sorted := if order.PersistenceSequence? then Sort(rows, BY_POSITION) else Sort(rows, BY_OBSERVATION);
    SortKeepsLength(rows, BY_POSITION);
    SortKeepsLength(rows, BY_OBSERVATION);
    sorted[|sorted| - 1]
  }

  lemma SortKeepsLength(rows: seq<UsageRow>, less: (UsageRow, UsageRow) -> bool)
    ensures |Sort(rows, less)| == |rows|
  {
    SortPermutes(rows, less);
    assert |multiset(Sort(rows, less))| == |multiset(rows)|;
  }

  // ----- finality ---------------------------------------------------------------------------

  datatype Finality =
    | Final | NotTerminal | NoExit | StaleExit | NoCoverage | NotCovered | NoPriorState | WorkedOn | OrderUnknown

  /** `segment_finality`, branch by branch. */
  function SegmentFinality(last: UsageRow, exit: Option<ExitRow>): Finality {
    var state := match last.state case Some(s) => s case None => "";
    if state !in TERMINAL_USAGE_STATES then NotTerminal
    else if exit.None? then NoExit
    else if exit.value.priorState.None? && exit.value.staleSession == Some(true) then StaleExit
    else if exit.value.costCoverage.None? then NoCoverage
    else if exit.value.costCoverage.value != FINAL_COST_COVERAGE then NotCovered
    else if exit.value.priorState.None? then NoPriorState
    else if exit.value.priorState.value == state then Final
    else WorkedOn
  }

  /** A segment is final exactly when its last result was terminal and an exit of
      that launch claims full coverage and agrees with that result. */
  lemma FinalMeans(last: UsageRow, exit: Option<ExitRow>)
    ensures SegmentFinality(last, exit) == Final <==>
              && last.state.Some? && last.state.value in TERMINAL_USAGE_STATES
              && exit.Some? && exit.value.costCoverage == Some(FINAL_COST_COVERAGE)
                 && exit.value.priorState == last.state
  {
  }

  predicate Ends(e: ExitRow, task: Task, s: Segment, agent: string) {
    e.repo == task.repo && e.task == task.task && e.agent == agent && e.spawn == s.spawn && e.session == s.session
  }

  function ExitOfSegment(exits: seq<ExitRow>, task: Task, s: Segment, agent: string): Option<ExitRow> {
    if exits == [] then None
    else if Ends(exits[0], task, s, agent) then Some(exits[0])
    else ExitOfSegment(exits[1..], task, s, agent)
  }

  /** What a segment contributes. */
  datatype Closing = Closing(finality: Finality, costUsd: Option<real>, costBasis: string)

  function Close(order: Order, idx: Index, task: Task, s: Segment): Closing
    requires RowsOf(idx.usage, task, s) != []
  {
    CloseRows(order, idx.exits, task, s, RowsOf(idx.usage, task, s))
  }

  function CloseRows(order: Order, exits: seq<ExitRow>, task: Task, s: Segment, rows: seq<UsageRow>): Closing
    requires rows != []
  {
    var last := LastRow(order, rows);
    var exit := ExitOfSegment(exits, task, s, last.agent);
    Closing(if |rows| > 1 && order.UnknownOrder? then OrderUnknown else SegmentFinality(last, exit),
            last.costUsd, last.costBasis)
  }

  lemma {:induction false} RowsMembers(usage: seq<UsageRow>, task: Task, s: Segment)
    ensures forall u :: u in RowsOf(usage, task, s) <==> u in usage && Belongs(u, task, s)
  {
    if usage != [] {
      var n := |usage| - 1;
      RowsMembers(usage[..n], task, s);
      assert usage == usage[..n] + [usage[n]];
    }
  }

  lemma SegmentHasRows(usage: seq<UsageRow>, task: Task, s: Segment)
    ensures s in Segments(usage, task) <==> RowsOf(usage, task, s) != []
  {
    RowsMembers(usage, task, s);
    var rows := RowsOf(usage, task, s);
    if rows != [] {
      assert rows[0] in rows;
    }
  }

  function Closings(order: Order, idx: Index, task: Task): map<Segment, Closing> {
    map s | s in Segments(idx.usage, task) :: SegmentHasRows(idx.usage, task, s); Close(order, idx, task, s)
  }

  // ----- totals ------------------------------------------------------------------------------

  datatype Pool = Provider | Daemon | Unfinished

  /** The one total a segment's cost joins, if any. */
  function PoolOf(c: Closing): Option<Pool> {
    if c.costUsd.None? then None
    else if c.finality != Final then Some(Unfinished)
    else if c.costBasis == PROVIDER_COST_BASIS then Some(Provider)
    else if c.costBasis == DAEMON_COST_BASIS then Some(Daemon)
    else None
  }

  function Costs(m: map<Segment, Closing>, pool: Pool): map<Segment, real> {
    map s | s in m && PoolOf(m[s]) == Some(pool) :: m[s].costUsd.value
  }

  /** What the last rows of all priced segments say. */
  function Prices(m: map<Segment, Closing>): map<Segment, real> {
    map s | s in m && m[s].costUsd.Some? :: m[s].costUsd.value
  }

  /** Priced and final, but on a basis that joins no total. */
  function Unpooled(m: map<Segment, Closing>): map<Segment, real> {
    map s | s in m && m[s].costUsd.Some? && PoolOf(m[s]).None? :: m[s].costUsd.value
  }

  ghost function Sum(costs: map<Segment, real>): real {
    if costs == map[] then 0.0
    else
      var s :| s in costs;
      costs[s] + Sum(costs - {s})
  }

  /** Any segment may be taken first. */
  lemma {:induction false} SumWithout(costs: map<Segment, real>, x: Segment)
    requires x in costs
    ensures Sum(costs) == costs[x] + Sum(costs - {x})
  {
    var s :| s in costs && Sum(costs) == costs[s] + Sum(costs - {s});
    if s != x {
      SumWithout(costs - {s}, x);
      SumWithout(costs - {x}, s);
      assert costs - {s} - {x} == costs - {x} - {s};
    }
  }

  /** Segments taken out one at a time. */
  lemma SumDrops(costs: map<Segment, real>, x: Segment)
    ensures Sum(costs) == (if x in costs then costs[x] else 0.0) + Sum(costs - {x})
  {
    if x in costs {
      SumWithout(costs, x);
    } else {
      assert costs - {x} == costs;
    }
  }

  /** Conservation: every priced segment is in exactly one total or unpooled. */
  lemma {:induction false} TotalsConserve(m: map<Segment, Closing>)
    ensures Sum(Prices(m)) == Sum(Costs(m, Provider)) + Sum(Costs(m, Daemon)) + Sum(Costs(m, Unfinished))
            + Sum(Unpooled(m))
    decreases |m|
  {
    if m == map[] {
      assert Prices(m) == Costs(m, Provider) == Costs(m, Daemon) == Costs(m, Unfinished) == Unpooled(m) == map[];
    } else {
      var s :| s in m;
      var n := m - {s};
      TotalsConserve(n);
      PartsDrop(m, s, n);
      SumDrops(Prices(m), s);
      SumDrops(Costs(m, Provider), s);
      SumDrops(Costs(m, Daemon), s);
      SumDrops(Costs(m, Unfinished), s);
      SumDrops(Unpooled(m), s);
    }
  }

  lemma PartsDrop(m: map<Segment, Closing>, s: Segment, n: map<Segment, Closing>)
    requires n == m - {s}
    ensures Prices(m) - {s} == Prices(n) && Unpooled(m) - {s} == Unpooled(n)
    ensures forall pool :: Costs(m, pool) - {s} == Costs(n, pool)
  {
  }

  ghost function Total(costs: map<Segment, real>): Option<real> {
    if costs == map[] then None else Some(Sum(costs))
  }

  function Add(total: Option<real>, v: real): Option<real> {
    Some((match total case Some(t) => t case None => 0.0) + v)
  }

  lemma TotalGrows(costs: map<Segment, real>, x: Segment, v: real)
    requires x !in costs
    ensures Total(costs[x := v]) == Add(Total(costs), v)
  {
    assert costs[x := v] - {x} == costs;
    SumWithout(costs[x := v], x);
  }

  /** Final, priced, and on the provider's own basis. */
  predicate Complete(c: Closing) {
    c.finality == Final && c.costUsd.Some? && c.costBasis == PROVIDER_COST_BASIS
  }

  predicate AllComplete(m: map<Segment, Closing>) {
    forall s :: s in m ==> Complete(m[s])
  }

  /** A running account of segments. */
  datatype Account = Account(
    provider: Option<real>, daemon: Option<real>, unfinished: Option<real>, allFinal: bool, nonProvider: bool,
    anySegment: bool)

  const OPENING := Account(None, None, None, true, false, false)

  predicate AllPriced(m: map<Segment, Closing>) {
    forall s :: s in m ==> m[s].finality == Final && m[s].costUsd.Some?
  }

  predicate OtherBasis(m: map<Segment, Closing>) {
    exists s :: s in m && m[s].costBasis != PROVIDER_COST_BASIS
  }

  ghost predicate Accounts(a: Account, m: map<Segment, Closing>) {
    && a.provider == Total(Costs(m, Provider)) && a.daemon == Total(Costs(m, Daemon))
    && a.unfinished == Total(Costs(m, Unfinished))
    && (a.allFinal <==> AllPriced(m)) && (a.nonProvider <==> OtherBasis(m)) && (a.anySegment <==> m != map[])
  }

  /** One segment: its match on finality, price and basis. */
  method Settle(a: Account, c: Closing, s: Segment, ghost m: map<Segment, Closing>) returns (b: Account)
    requires Accounts(a, m) && s !in m
    ensures Accounts(b, m[s := c])
  {
    b := a.(anySegment := true);
    assert m[s := c] != map[] by { assert s in m[s := c]; }
    if c.finality != Final {
      b := b.(allFinal := false);
    }
    if c.costBasis != PROVIDER_COST_BASIS {
      b := b.(nonProvider := true);
    }
    if c.costUsd.None? {
      b := b.(allFinal := false);
    } else if c.finality != Final {
      b := b.(unfinished := Add(b.unfinished, c.costUsd.value));
    } else if c.costBasis == PROVIDER_COST_BASIS {
      b := b.(provider := Add(b.provider, c.costUsd.value));
    } else if c.costBasis == DAEMON_COST_BASIS {
      b := b.(daemon := Add(b.daemon, c.costUsd.value));
    }
    PoolGrows(m, s, c, Provider);
    PoolGrows(m, s, c, Daemon);
    PoolGrows(m, s, c, Unfinished);
    FlagsGrow(m, s, c, m[s := c]);
  }

  lemma FlagsGrow(m: map<Segment, Closing>, s: Segment, c: Closing, n: map<Segment, Closing>)
    requires s !in m && n == m[s := c]
    ensures AllPriced(n) <==> AllPriced(m) && c.finality == Final && c.costUsd.Some?
    ensures OtherBasis(n) <==> OtherBasis(m) || c.costBasis != PROVIDER_COST_BASIS
  {
    assert n[s] == c && forall x :: x in m ==> x in n && n[x] == m[x];
  }

  lemma PoolGrows(m: map<Segment, Closing>, s: Segment, c: Closing, pool: Pool)
    requires s !in m
    ensures Total(Costs(m[s := c], pool)) ==
            if PoolOf(c) == Some(pool) then Add(Total(Costs(m, pool)), c.costUsd.value) else Total(Costs(m, pool))
  {
    if PoolOf(c) == Some(pool) {
      assert Costs(m[s := c], pool) == Costs(m, pool)[s := c.costUsd.value];
      TotalGrows(Costs(m, pool), s, c.costUsd.value);
    } else {
      assert Costs(m[s := c], pool) == Costs(m, pool);
    }
  }

  // ----- launch attempts ------------------------------------------------------------------------

  predicate Ran(repo: string, task': string, spawn': string, task: Task, spawn: string) {
    repo == task.repo && task' == task.task && spawn' == spawn
  }

  function ExitsFor(exits: seq<ExitRow>, task: Task, spawn: string): seq<ExitRow> {
    if exits == [] then []
    else
      var e := exits[|exits| - 1];
      ExitsFor(exits[..|exits| - 1], task, spawn) + if Ran(e.repo, e.task, e.spawn, task, spawn) then [e] else []
  }

  function Ended(exits: seq<ExitRow>): set<string> {
    set e | e in exits :: e.session
  }

  function Metered(usage: seq<UsageRow>, task: Task, spawn: string): set<string> {
    set u | u in usage && Ran(u.repo, u.task, u.spawn, task, spawn) :: u.session
  }

  function LaunchEvents(launches: seq<LaunchRow>, task: Task, spawn: string): nat {
    if launches == [] then 0
    else
      var l := launches[|launches| - 1];
      LaunchEvents(launches[..|launches| - 1], task, spawn)
      + if Ran(l.repo, l.task, l.spawn, task, spawn) && l.kind == LaunchEvent then 1 else 0
  }

  /** The sessions seen by exit or by usage. */
  function Sessions(idx: Index, task: Task, spawn: string): set<string> {
    Ended(ExitsFor(idx.exits, task, spawn)) + Metered(idx.usage, task, spawn)
  }

  function Max(a: nat, b: nat): nat {
    if a < b then b else a
  }

  predicate EndsOnce(exits: seq<ExitRow>) {
    forall i, j :: 0 <= i < j < |exits| ==> exits[i].session != exits[j].session
  }

  /** Exits, sessions that only usage shows, and launch events beyond those. */
  method CountLaunches(idx: Index, task: Task, spawn: string) returns (attempts: nat)
    ensures attempts == Attempts(idx, task, spawn)
  {
    hide ExitsFor, Metered, LaunchEvents, Ended;
    var exits := CollectExits(idx.exits, task, spawn);
    var sessioned := Ended(exits);
    var usageOnly := CollectUsageOnly(idx.usage, sessioned, task, spawn);
    var events := CountEvents(idx.launches, task, spawn);
    var accounted := |sessioned| + |usageOnly|;
    attempts := |exits| + |usageOnly| + if events > accounted then events - accounted else 0;
    assert Sessions(idx, task, spawn) == sessioned + usageOnly;
  }

  /** The attempts of a generation: the larger of sessions and launch events,
      where a session that exits again counts again. */
  function Attempts(idx: Index, task: Task, spawn: string): int {
    var exits := ExitsFor(idx.exits, task, spawn);
    Max(|Sessions(idx, task, spawn)|, LaunchEvents(idx.launches, task, spawn)) + |exits| - |Ended(exits)|
  }

  /** The attempts are never fewer than the sessions or the launch events, and
      equal the larger of the two exactly when no session exits twice. */
  lemma AttemptsAreLarger(idx: Index, task: Task, spawn: string)
    ensures var larger := Max(|Sessions(idx, task, spawn)|, LaunchEvents(idx.launches, task, spawn));
            && Attempts(idx, task, spawn) >= larger
            && (Attempts(idx, task, spawn) == larger <==> EndsOnce(ExitsFor(idx.exits, task, spawn)))
  {
    hide ExitsFor, Metered, LaunchEvents, Ended, EndsOnce;
    EndedOnce(ExitsFor(idx.exits, task, spawn));
  }

  method CollectUsageOnly(usage: seq<UsageRow>, sessioned: set<string>, task: Task, spawn: string)
      returns (sessions: set<string>)
    ensures sessions == Metered(usage, task, spawn) - sessioned
  {
    hide Metered;
    sessions := {};
    assert Metered(usage[..0], task, spawn) == {} by { NoneMetered(usage[..0], task, spawn); }
    for i := 0 to |usage|
      invariant sessions == Metered(usage[..i], task, spawn) - sessioned
    {
      var u := usage[i];
      MeteredGrows(usage, i, task, spawn);
      if Ran(u.repo, u.task, u.spawn, task, spawn) && u.session !in sessioned {
        sessions := sessions + {u.session};
      }
    }
    assert usage[..|usage|] == usage;
  }

  lemma NoneMetered(usage: seq<UsageRow>, task: Task, spawn: string)
    requires usage == []
    ensures Metered(usage, task, spawn) == {}
  {
  }

  lemma MeteredGrows(usage: seq<UsageRow>, i: nat, task: Task, spawn: string)
    requires i < |usage|
    ensures Metered(usage[..i + 1], task, spawn) ==
            Metered(usage[..i], task, spawn)
            + if Ran(usage[i].repo, usage[i].task, usage[i].spawn, task, spawn) then {usage[i].session} else {}
  {
    assert usage[..i + 1] == usage[..i] + [usage[i]];
  }

  method CollectExits(exits: seq<ExitRow>, task: Task, spawn: string) returns (mine: seq<ExitRow>)
    ensures mine == ExitsFor(exits, task, spawn)
  {
    mine := [];
    for i := 0 to |exits|
      invariant mine == ExitsFor(exits[..i], task, spawn)
    {
      assert exits[..i + 1][..i] == exits[..i];
      if Ran(exits[i].repo, exits[i].task, exits[i].spawn, task, spawn) {
        mine := mine + [exits[i]];
      }
    }
    assert exits[..|exits|] == exits;
  }

  method CountEvents(launches: seq<LaunchRow>, task: Task, spawn: string) returns (n: nat)
    ensures n == LaunchEvents(launches, task, spawn)
  {
    n := 0;
    for i := 0 to |launches|
      invariant n == LaunchEvents(launches[..i], task, spawn)
    {
      assert launches[..i + 1][..i] == launches[..i];
      var l := launches[i];
      if Ran(l.repo, l.task, l.spawn, task, spawn) && l.kind == LaunchEvent {
        n := n + 1;
      }
    }
    assert launches[..|launches|] == launches;
  }

  /** As many sessions as exits exactly when no session exits twice. */
  lemma {:induction false} EndedOnce(exits: seq<ExitRow>)
    ensures |Ended(exits)| <= |exits|
    ensures |Ended(exits)| == |exits| <==> EndsOnce(exits)
  {
    if exits != [] {
      hide Ended, EndsOnce;
      EndedOnce(exits[..|exits| - 1]);
      EndedGrows(exits);
    }
  }

  lemma EndedGrows(exits: seq<ExitRow>)
    requires exits != []
    ensures var last, before := exits[|exits| - 1].session, Ended(exits[..|exits| - 1]);
            && Ended(exits) == before + {last}
            && (EndsOnce(exits) <==> EndsOnce(exits[..|exits| - 1]) && last !in before)
  {
    var n := |exits| - 1;
    var before := exits[..n];
    assert exits == before + [exits[n]];
    if exits[n].session in Ended(before) {
      var e :| e in before && e.session == exits[n].session;
      var k :| 0 <= k < n && exits[k] == e;
    } else {
      forall k | 0 <= k < n
        ensures exits[k].session != exits[n].session
      {
        assert before[k] in before;
      }
    }
  }

  // ----- a delivery ------------------------------------------------------------------------------

  datatype CostCoverage = NoneObserved | MissingCost | CompleteCost | PartialCost

  datatype Cost = Cost(
    coverage: CostCoverage,
    reported: Option<real>,
    provider: Option<real>,
    daemon: Option<real>,
    unfinished: Option<real>,
    attempts: int)

  function Generations(idx: Index, task: Task): set<string> {
    (set e | e in idx.exits && e.repo == task.repo && e.task == task.task :: e.spawn)
    + (set u | u in idx.usage && u.repo == task.repo && u.task == task.task :: u.spawn)
    + (set l | l in idx.launches && l.repo == task.repo && l.task == task.task :: l.spawn)
  }

  ghost function SumAttempts(idx: Index, task: Task, spawns: set<string>): int {
    if spawns == {} then 0
    else
      var s :| s in spawns;
      Attempts(idx, task, s) + SumAttempts(idx, task, spawns - {s})
  }

  lemma {:induction false} AttemptsWithout(idx: Index, task: Task, spawns: set<string>, x: string)
    requires x in spawns
    ensures SumAttempts(idx, task, spawns) == Attempts(idx, task, x) + SumAttempts(idx, task, spawns - {x})
  {
    hide Attempts;
    var s :| && s in spawns
             && SumAttempts(idx, task, spawns) == Attempts(idx, task, s) + SumAttempts(idx, task, spawns - {s});
    if s != x {
      AttemptsWithout(idx, task, spawns - {s}, x);
      AttemptsWithout(idx, task, spawns - {x}, s);
      assert spawns - {s} - {x} == spawns - {x} - {s};
    }
  }

  type Rows = map<Segment, seq<UsageRow>>

  /** `by_segment` of one generation. */
  method GroupUsage(usage: seq<UsageRow>, task: Task, spawn: string) returns (rows: Rows)
    ensures forall s :: s in rows <==> s in Segments(usage, task) && s.spawn == spawn
    ensures forall s :: s in rows ==> rows[s] != [] && rows[s] == RowsOf(usage, task, s)
  {
    rows := map[];
    for i := 0 to |usage|
      invariant forall s :: s in rows <==> s.spawn == spawn && RowsOf(usage[..i], task, s) != []
      invariant forall s :: s in rows ==> rows[s] == RowsOf(usage[..i], task, s)
    {
      assert usage[..i + 1][..i] == usage[..i];
      var u := usage[i];
      if Ran(u.repo, u.task, u.spawn, task, spawn) {
        var s := Segment(u.spawn, u.session, u.providerSession);
        rows := rows[s := (if s in rows then rows[s] else []) + [u]];
      }
    }
    assert usage[..|usage|] == usage;
    forall s
      ensures s in Segments(usage, task) <==> RowsOf(usage, task, s) != []
    {
      SegmentHasRows(usage, task, s);
    }
  }

  /** What the report of a delivery says, in terms of its segments and
      generations: a provider total exactly when there is a segment and every
      segment is complete, and then the sum over the last rows of all of them. */
  ghost predicate IsCostOf(cost: Cost, m: map<Segment, Closing>, generations: set<string>, attempts: int) {
    && cost.reported == (if m != map[] && AllComplete(m) then Some(Sum(Prices(m))) else None)
    && cost.provider == Total(Costs(m, Provider)) && cost.daemon == Total(Costs(m, Daemon))
    && cost.unfinished == Total(Costs(m, Unfinished)) && cost.attempts == attempts
    && (cost.coverage == NoneObserved <==> generations == {})
    && (cost.coverage == MissingCost <==> generations != {} && m == map[])
    && (cost.coverage == CompleteCost <==> m != map[] && AllComplete(m))
  }

  /** The cost of one delivery: generation by generation, segment by segment. */
  method CostOfDelivery(idx: Index, order: Order, task: Task) returns (cost: Cost)
    ensures var generations := Generations(idx, task);
            IsCostOf(cost, Closings(order, idx, task), generations, SumAttempts(idx, task, generations))
  {
    hide Accounts, Close, Attempts, IsCostOf;
    var spawns := Generations(idx, task);
    var account := OPENING;
    ghost var done: map<Segment, Closing> := map[];
    assert Accounts(account, done) by { EmptyAccount(); }
    var attempts, left := 0, spawns;
    while left != {}
      invariant left <= spawns
      invariant forall s :: s in done <==> s in Segments(idx.usage, task) && s.spawn in spawns - left
      invariant forall s :: s in done ==> done[s] == Closings(order, idx, task)[s]
      invariant Accounts(account, done)
      invariant attempts + SumAttempts(idx, task, left) == SumAttempts(idx, task, spawns)
      decreases |left|
    {
      var spawn :| spawn in left;
      var n := CountLaunches(idx, task, spawn);
      attempts := attempts + n;
      AttemptsWithout(idx, task, left, spawn);
      account, done := SettleGeneration(idx, order, task, spawn, account, done);
      left := left - {spawn};
    }
    assert done == Closings(order, idx, task) by {
      SegmentsOfGenerations(idx, task);
    }
    cost := Conclude(account, done, spawns, attempts);
  }

  lemma EmptyAccount()
    ensures Accounts(OPENING, map[])
  {
    assert Costs(map[], Provider) == Costs(map[], Daemon) == Costs(map[], Unfinished) == map[];
  }

  lemma SegmentsOfGenerations(idx: Index, task: Task)
    ensures forall s :: s in Segments(idx.usage, task) ==> s.spawn in Generations(idx, task)
  {
  }

  method SettleGeneration(
      idx: Index, order: Order, task: Task, spawn: string, a: Account, ghost m: map<Segment, Closing>)
    returns (b: Account, ghost n: map<Segment, Closing>)
    requires Accounts(a, m) && forall s :: s in m ==> s.spawn != spawn
    ensures Accounts(b, n)
    ensures forall s :: s in n <==> s in m || (s in Segments(idx.usage, task) && s.spawn == spawn)
    ensures forall s :: s in n ==> n[s] == if s in m then m[s] else Closings(order, idx, task)[s]
  {
    hide Accounts, CloseRows, RowsOf, Segments;
    var rows := GroupUsage(idx.usage, task, spawn);
    b, n := a, m;
    var left := rows.Keys;
    while left != {}
      invariant left <= rows.Keys
      invariant Accounts(b, n)
      invariant forall s :: s in n <==> s in m || s in rows.Keys - left
      invariant forall s :: s in n ==> n[s] == if s in m then m[s] else Closings(order, idx, task)[s]
      decreases |left|
    {
      var s :| s in left;
      var closing := CloseRows(order, idx.exits, task, s, rows[s]);
      assert closing == Closings(order, idx, task)[s];
      b := Settle(b, closing, s, n);
      n := n[s := closing];
      left := left - {s};
    }
  }

  lemma SomeSpawn(m: map<Segment, Closing>, spawns: set<string>)
    requires forall s :: s in m ==> s.spawn in spawns
    ensures m != map[] ==> spawns != {}
  {
    if m != map[] {
      var s :| s in m;
      assert s.spawn in spawns;
    }
  }

  /** When every segment is complete the provider total leaves none of them out. */
  lemma CompleteIsPooled(m: map<Segment, Closing>)
    requires AllComplete(m)
    ensures Costs(m, Provider) == Prices(m)
    ensures m != map[] ==> Costs(m, Provider) != map[]
  {
    if m != map[] {
      var s :| s in m;
      assert s in Costs(m, Provider);
    }
  }

  method Conclude(a: Account, ghost m: map<Segment, Closing>, spawns: set<string>, attempts: int) returns (cost: Cost)
    requires Accounts(a, m)
    requires forall s :: s in m ==> s.spawn in spawns
    ensures IsCostOf(cost, m, spawns, attempts)
  {
    hide Costs, Prices;
    var coverage :=
      if spawns == {} then NoneObserved
      else if !a.anySegment then MissingCost
      else if a.allFinal && !a.nonProvider then CompleteCost
      else PartialCost;
    assert a.allFinal && !a.nonProvider <==> AllComplete(m);
    assert m != map[] ==> spawns != {} by { SomeSpawn(m, spawns); }
    if m != map[] && AllComplete(m) {
      CompleteIsPooled(m);
    }
    var reported := if coverage == CompleteCost then a.provider else None;
    cost := Cost(coverage, reported, a.provider, a.daemon, a.unfinished, attempts);
  }
}
