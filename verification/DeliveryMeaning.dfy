/** What the cost of a delivery means, in the fields of the usage, exit and launch
    rows: which row of a segment decides, which exit makes it final, which total
    its cost joins, and what an attempt is. */
module DeliveryMeaning {
  import opened Basics
  import opened EvidenceRecords
  import opened StableSort
  import opened TupleCapture
  import opened EvidenceIndex
  import opened DeliveryCost
  import opened DeliveryReplay

  // ----- the deciding row ---------------------------------------------------------------

  /** The row is of this segment of this task. */
  predicate IsOf(u: UsageRow, task: Task, s: Segment) {
    && u.repo == task.repo && u.task == task.task
    && u.spawn == s.spawn && u.session == s.session && u.providerSession == s.providerSession
  }

  /** `v` comes after `u`: by position under an accepted order, otherwise by the
      time the producer stamped; equal ones by record id. */
  predicate ComesAfter(order: Order, u: UsageRow, v: UsageRow) {
    if order == PersistenceSequence then
      u.position < v.position || (u.position == v.position && Less(u.record, v.record))
    else
      || (v.observedAt.Some? && (u.observedAt.None? || u.observedAt.value < v.observedAt.value))
      || (u.observedAt == v.observedAt && Less(u.record, v.record))
  }

  ghost predicate Decides(order: Order, usage: seq<UsageRow>, task: Task, s: Segment, u: UsageRow) {
    && u in usage && IsOf(u, task, s)
    && forall v :: v in usage && IsOf(v, task, s) ==> !ComesAfter(order, u, v)
  }

  lemma ByObservationOrders()
    ensures Orders(BY_OBSERVATION)
  {
    forall a: UsageRow, b: UsageRow, c: UsageRow
      ensures BY_OBSERVATION(a, b) && BY_OBSERVATION(b, c) ==> BY_OBSERVATION(a, c)
      ensures BY_OBSERVATION(a, b) ==> !BY_OBSERVATION(b, a)
      ensures BY_OBSERVATION(a, b) ==> BY_OBSERVATION(a, c) || BY_OBSERVATION(c, b)
    {
      var x, y, z := a.record, b.record, c.record;
      LessTotal(x, z);
      if Less(x, y) {
        LessAsymmetric(x, y);
        if Less(y, z) { LessTransitive(x, y, z); }
        if Less(z, x) { LessTransitive(z, x, y); }
      }
    }
  }

  lemma LastOfSorted(rows: seq<UsageRow>, less: (UsageRow, UsageRow) -> bool)
    requires Orders(less) && rows != []
    ensures |Sort(rows, less)| == |rows|
    ensures var last := Sort(rows, less)[|rows| - 1];
            last in rows && forall u :: u in rows ==> !less(last, u)
  {
    hide Sort;
    SortInOrder(rows, less);
    SortPermutes(rows, less);
    SortKeepsLength(rows, less);
    var sorted := Sort(rows, less);
    var last := sorted[|sorted| - 1];
    assert last in sorted;
    forall u | u in rows
      ensures !less(last, u)
    {
      assert u in sorted;
      var k :| 0 <= k < |sorted| && sorted[k] == u;
      assert k < |sorted| - 1 ==> !less(last, sorted[k]);
    }
  }

  lemma LastRowDecides(order: Order, usage: seq<UsageRow>, task: Task, s: Segment)
    requires RowsOf(usage, task, s) != []
    ensures Decides(order, usage, task, s, LastRow(order, RowsOf(usage, task, s)))
  {
    hide Sort, RowsOf, Orders;
    var rows := RowsOf(usage, task, s);
    RowsMembers(usage, task, s);
    ByPositionOrders();
    ByObservationOrders();
    if order == PersistenceSequence {
      LastOfSorted(rows, BY_POSITION);
    } else {
      LastOfSorted(rows, BY_OBSERVATION);
    }
  }

  // ----- finality ----------------------------------------------------------------------------

  /** An exit of this launch by this agent. */
  predicate ExitsLaunch(e: ExitRow, task: Task, s: Segment, agent: string) {
    e.repo == task.repo && e.task == task.task && e.spawn == s.spawn && e.session == s.session && e.agent == agent
  }

  /** The first exit of this launch claims final coverage and records this state. */
  ghost predicate ClosedBy(exits: seq<ExitRow>, task: Task, s: Segment, agent: string, state: string, k: nat) {
    && k < |exits| && ExitsLaunch(exits[k], task, s, agent)
    && (forall j :: 0 <= j < k ==> !ExitsLaunch(exits[j], task, s, agent))
    && exits[k].costCoverage == Some("final") && exits[k].priorState == Some(state)
  }

  lemma {:induction false} FoundExit(exits: seq<ExitRow>, task: Task, s: Segment, agent: string)
    ensures var e := ExitOfSegment(exits, task, s, agent);
            && (e.None? ==> forall x :: x in exits ==> !ExitsLaunch(x, task, s, agent))
            && (e.Some? ==>
                  exists k :: && 0 <= k < |exits| && exits[k] == e.value && ExitsLaunch(exits[k], task, s, agent)
                              && forall j :: 0 <= j < k ==> !ExitsLaunch(exits[j], task, s, agent))
  {
    if exits != [] {
      FoundExit(exits[1..], task, s, agent);
      assert exits == [exits[0]] + exits[1..];
      assert Ends(exits[0], task, s, agent) <==> ExitsLaunch(exits[0], task, s, agent);
      var e := ExitOfSegment(exits[1..], task, s, agent);
      if !ExitsLaunch(exits[0], task, s, agent) && e.Some? {
        var k :| && 0 <= k < |exits[1..]| && exits[1..][k] == e.value && ExitsLaunch(exits[1..][k], task, s, agent)
                 && forall j :: 0 <= j < k ==> !ExitsLaunch(exits[1..][j], task, s, agent);
        assert exits[k + 1] == e.value;
        forall j | 0 <= j < k + 1
          ensures !ExitsLaunch(exits[j], task, s, agent)
        {
          assert j > 0 ==> exits[j] == exits[1..][j - 1];
        }
      }
    }
  }

  /** The segment has one usage row. */
  predicate SingleRow(usage: seq<UsageRow>, task: Task, s: Segment) {
    forall i, j :: 0 <= i < j < |usage| ==> !(IsOf(usage[i], task, s) && IsOf(usage[j], task, s))
  }

  lemma SingleRowSnoc(before: seq<UsageRow>, last: UsageRow, task: Task, s: Segment)
    ensures SingleRow(before + [last], task, s) <==>
              && SingleRow(before, task, s)
              && (IsOf(last, task, s) ==> forall u :: u in before ==> !IsOf(u, task, s))
  {
    hide IsOf;
    var more := before + [last];
    assert forall i :: 0 <= i < |before| ==> more[i] == before[i] && before[i] in before;
    assert more[|before|] == last;
    if SingleRow(more, task, s) {
      forall u | u in before
        ensures !(IsOf(u, task, s) && IsOf(last, task, s))
      {
        var i :| 0 <= i < |before| && before[i] == u;
        assert !(IsOf(more[i], task, s) && IsOf(more[|before|], task, s));
      }
      forall i, j | 0 <= i < j < |before|
        ensures !(IsOf(before[i], task, s) && IsOf(before[j], task, s))
      {
        assert !(IsOf(more[i], task, s) && IsOf(more[j], task, s));
      }
    }
  }

  lemma {:induction false} RowsCount(usage: seq<UsageRow>, task: Task, s: Segment)
    ensures |RowsOf(usage, task, s)| <= 1 <==> SingleRow(usage, task, s)
  {
    if usage != [] {
      var n := |usage| - 1;
      RowsCount(usage[..n], task, s);
      RowsMembers(usage[..n], task, s);
      SingleRowSnoc(usage[..n], usage[n], task, s);
      var before := RowsOf(usage[..n], task, s);
      assert usage == usage[..n] + [usage[n]];
      hide SingleRow;
      assert before == [] || before[0] in before;
    }
  }

  /** The deciding row was terminal, and the first exit of its launch by its agent
      claims final coverage and agrees with it; without an accepted order the row
      must be the only one. */
  ghost predicate IsFinal(order: Order, idx: Index, task: Task, s: Segment, u: UsageRow) {
    && (order == PersistenceSequence || SingleRow(idx.usage, task, s))
    && (u.state == Some("completed") || u.state == Some("failed") || u.state == Some("stopped"))
    && exists k: nat :: ClosedBy(idx.exits, task, s, u.agent, u.state.value, k)
  }

  lemma FinalityMeans(order: Order, idx: Index, task: Task, s: Segment)
    requires RowsOf(idx.usage, task, s) != []
    ensures Close(order, idx, task, s).finality == Final <==>
              IsFinal(order, idx, task, s, LastRow(order, RowsOf(idx.usage, task, s)))
  {
    hide RowsOf, LastRow, SegmentFinality, ExitOfSegment, SingleRow;
    var rows := RowsOf(idx.usage, task, s);
    var last := LastRow(order, rows);
    var exit := ExitOfSegment(idx.exits, task, s, last.agent);
    RowsCount(idx.usage, task, s);
    FoundExit(idx.exits, task, s, last.agent);
    FinalMeans(last, exit);
    if SegmentFinality(last, exit) == Final {
      var k :| && 0 <= k < |idx.exits| && idx.exits[k] == exit.value && ExitsLaunch(idx.exits[k], task, s, last.agent)
               && forall j :: 0 <= j < k ==> !ExitsLaunch(idx.exits[j], task, s, last.agent);
      assert ClosedBy(idx.exits, task, s, last.agent, last.state.value, k);
    }
    if last.state.Some? && exists k: nat :: ClosedBy(idx.exits, task, s, last.agent, last.state.value, k) {
      var k: nat :| ClosedBy(idx.exits, task, s, last.agent, last.state.value, k);
      FirstExitIsOne(idx.exits, task, s, last.agent, exit, k);
    }
  }

  lemma FirstExitIsOne(exits: seq<ExitRow>, task: Task, s: Segment, agent: string, exit: Option<ExitRow>, k: nat)
    requires exit == ExitOfSegment(exits, task, s, agent)
    requires k < |exits| && ExitsLaunch(exits[k], task, s, agent)
    requires forall j :: 0 <= j < k ==> !ExitsLaunch(exits[j], task, s, agent)
    ensures exit == Some(exits[k])
  {
    hide ExitOfSegment, ExitsLaunch;
    FoundExit(exits, task, s, agent);
    assert exits[k] in exits;
  }

  /** A segment is one some usage row belongs to; its deciding row gives its price
      and basis, and makes it final exactly as `IsFinal` says. */
  lemma ClosingsMean(order: Order, idx: Index, task: Task, s: Segment)
    ensures s in Closings(order, idx, task) <==> exists u :: u in idx.usage && IsOf(u, task, s)
    ensures s in Closings(order, idx, task) ==>
              var c := Closings(order, idx, task)[s];
              exists u :: && Decides(order, idx.usage, task, s, u) && c.costUsd == u.costUsd
                  && c.costBasis == u.costBasis
                          && (c.finality == Final <==> IsFinal(order, idx, task, s, u))
  {
    hide RowsOf, LastRow, Decides, IsFinal, SegmentFinality;
    SegmentHasRows(idx.usage, task, s);
    RowsMembers(idx.usage, task, s);
    var rows := RowsOf(idx.usage, task, s);
    assert s in Segments(idx.usage, task) <==> exists u :: u in idx.usage && IsOf(u, task, s);
    if rows != [] {
      LastRowDecides(order, idx.usage, task, s);
      FinalityMeans(order, idx, task, s);
      var u := LastRow(order, rows);
      assert Decides(order, idx.usage, task, s, u) && Close(order, idx, task, s).costUsd == u.costUsd;
    }
  }

  // ----- the totals -----------------------------------------------------------------------------

  /** Which total the cost of a segment joins. */
  lemma PoolsMean(m: map<Segment, Closing>, s: Segment)
    ensures s in Costs(m, Provider) <==>
              && s in m && m[s].finality == Final && m[s].costUsd.Some?
              && m[s].costBasis == "provider_reported_segment_total"
    ensures s in Costs(m, Daemon) <==>
              s in m && m[s].finality == Final && m[s].costUsd.Some? && m[s].costBasis == "daemon_priced_increments"
    ensures s in Costs(m, Unfinished) <==> s in m && m[s].finality != Final && m[s].costUsd.Some?
    ensures forall pool :: s in Costs(m, pool) ==> Costs(m, pool)[s] == m[s].costUsd.value
    ensures s in Prices(m) <==> s in m && m[s].costUsd.Some?
    ensures s in Prices(m) ==> Prices(m)[s] == m[s].costUsd.value
  {
    assert |"provider_reported_segment_total"| != |"daemon_priced_increments"|;
  }

  lemma SumsMean(costs: map<Segment, real>)
    ensures Total(costs) == (if |costs| == 0 then None else Some(Sum(costs)))
    ensures |costs| == 0 ==> Sum(costs) == 0.0
    ensures forall s :: s in costs ==> Sum(costs) == costs[s] + Sum(costs - {s})
  {
    forall s | s in costs
      ensures Sum(costs) == costs[s] + Sum(costs - {s})
    {
      SumWithout(costs, s);
    }
  }

  /** A provider total is reported exactly when the task has a usage row and every
      segment is final, priced, and on the provider's basis; it is then the sum of
      the prices of all deciding rows. */
  lemma ReportedMeans(cost: Cost, order: Order, idx: Index, task: Task, generations: set<string>, attempts: int)
    requires IsCostOf(cost, Closings(order, idx, task), generations, attempts)
    ensures var m := Closings(order, idx, task);
            && (cost.reported.Some? <==>
                  && (exists u :: u in idx.usage && u.repo == task.repo && u.task == task.task)
                  && forall s :: s in m ==> && m[s].finality == Final && m[s].costUsd.Some?
                                            && m[s].costBasis == "provider_reported_segment_total")
            && (cost.reported.Some? ==> cost.reported.value == Sum(map s | s in m :: m[s].costUsd.value))
  {
    hide Close, Costs, Sum, Total;
    var m := Closings(order, idx, task);
    if u :| u in idx.usage && u.repo == task.repo && u.task == task.task {
      assert Segment(u.spawn, u.session, u.providerSession) in m;
    }
    if s :| s in m {
      assert s in Segments(idx.usage, task);
    }
    if cost.reported.Some? {
      assert Prices(m) == map s | s in m :: m[s].costUsd.value;
    }
  }

  /** A segment of which no exit was captured under its session leaves the delivery
      without a provider total. */
  lemma NoExitNoTotal(cost: Cost, order: Order, idx: Index, task: Task, generations: set<string>, attempts: int,
      u: UsageRow)
    requires IsCostOf(cost, Closings(order, idx, task), generations, attempts)
    requires u in idx.usage && u.repo == task.repo && u.task == task.task
    requires forall e :: e in idx.exits ==>
               !(e.repo == task.repo && e.task == task.task && e.spawn == u.spawn && e.session == u.session)
    ensures cost.reported.None?
  {
    hide IsCostOf, Closings, Decides;
    var s := Segment(u.spawn, u.session, u.providerSession);
    assert IsOf(u, task, s);
    ClosingsMean(order, idx, task, s);
    ReportedMeans(cost, order, idx, task, generations, attempts);
    var d :| && Decides(order, idx.usage, task, s, d)
             && (Closings(order, idx, task)[s].finality == Final <==> IsFinal(order, idx, task, s, d));
    forall k | 0 <= k < |idx.exits|
      ensures !ExitsLaunch(idx.exits[k], task, s, d.agent)
    {
      assert idx.exits[k] in idx.exits;
    }
  }

  // ----- attempts ------------------------------------------------------------------------------------

  predicate OfGeneration(repo: string, name: string, spawn: string, task: Task, generation: string) {
    repo == task.repo && name == task.task && spawn == generation
  }

  lemma GenerationsMean(idx: Index, task: Task, spawn: string)
    ensures spawn in Generations(idx, task) <==>
              || (exists e :: e in idx.exits && OfGeneration(e.repo, e.task, e.spawn, task, spawn))
              || (exists u :: u in idx.usage && OfGeneration(u.repo, u.task, u.spawn, task, spawn))
              || (exists l :: l in idx.launches && OfGeneration(l.repo, l.task, l.spawn, task, spawn))
  {
  }

  predicate IsExitOf(e: ExitRow, task: Task, spawn: string) {
    OfGeneration(e.repo, e.task, e.spawn, task, spawn)
  }

  lemma {:induction false} ExitsForMembers(exits: seq<ExitRow>, task: Task, spawn: string)
    ensures forall e :: e in ExitsFor(exits, task, spawn) <==> e in exits && IsExitOf(e, task, spawn)
  {
    if exits != [] {
      ExitsForMembers(exits[..|exits| - 1], task, spawn);
      assert exits == exits[..|exits| - 1] + [exits[|exits| - 1]];
    }
  }

  /** No session of the generation has two exit rows. */
  predicate NoSecondExit(exits: seq<ExitRow>, task: Task, spawn: string) {
    forall i, j :: 0 <= i < j < |exits| && IsExitOf(exits[i], task, spawn) && IsExitOf(exits[j], task, spawn) ==>
      exits[i].session != exits[j].session
  }

  lemma EndsOnceSnoc(before: seq<ExitRow>, last: ExitRow)
    ensures EndsOnce(before + [last]) <==> EndsOnce(before) && forall e :: e in before ==> e.session != last.session
  {
    var more := before + [last];
    assert forall i :: 0 <= i < |before| ==> more[i] == before[i] && before[i] in before;
    if EndsOnce(more) {
      forall e | e in before
        ensures e.session != last.session
      {
        var i :| 0 <= i < |before| && before[i] == e;
        assert more[i].session != more[|before|].session;
      }
    }
  }

  lemma NoSecondExitSnoc(before: seq<ExitRow>, last: ExitRow, task: Task, spawn: string)
    ensures NoSecondExit(before + [last], task, spawn) <==>
              && NoSecondExit(before, task, spawn)
              && (IsExitOf(last, task, spawn) ==>
                    forall e :: e in before && IsExitOf(e, task, spawn) ==> e.session != last.session)
  {
    hide IsExitOf;
    var more := before + [last];
    assert forall i :: 0 <= i < |before| ==> more[i] == before[i] && before[i] in before;
    assert more[|before|] == last;
    if NoSecondExit(more, task, spawn) {
      forall e | e in before && IsExitOf(e, task, spawn) && IsExitOf(last, task, spawn)
        ensures e.session != last.session
      {
        var i :| 0 <= i < |before| && before[i] == e;
        assert IsExitOf(more[i], task, spawn) && IsExitOf(more[|before|], task, spawn);
      }
      forall i, j | 0 <= i < j < |before| && IsExitOf(before[i], task, spawn) && IsExitOf(before[j], task, spawn)
        ensures before[i].session != before[j].session
      {
        assert IsExitOf(more[i], task, spawn) && IsExitOf(more[j], task, spawn);
      }
    }
  }

  lemma ExitsForSnoc(before: seq<ExitRow>, last: ExitRow, task: Task, spawn: string)
    ensures ExitsFor(before + [last], task, spawn) ==
            ExitsFor(before, task, spawn) + if IsExitOf(last, task, spawn) then [last] else []
  {
    assert (before + [last])[..|before|] == before;
  }

  lemma {:induction false} EndsOnceMeans(exits: seq<ExitRow>, task: Task, spawn: string)
    ensures EndsOnce(ExitsFor(exits, task, spawn)) <==> NoSecondExit(exits, task, spawn)
  {
    hide EndsOnce, NoSecondExit, ExitsFor, IsExitOf;
    if exits != [] {
      var n := |exits| - 1;
      var before, last := exits[..n], exits[n];
      var mine := ExitsFor(before, task, spawn);
      assert exits == before + [last];
      EndsOnceMeans(before, task, spawn);
      ExitsForMembers(before, task, spawn);
      ExitsForSnoc(before, last, task, spawn);
      EndsOnceSnoc(mine, last);
      NoSecondExitSnoc(before, last, task, spawn);
      assert mine + [] == mine;
    } else {
      NoExits(exits, task, spawn);
    }
  }

  lemma NoExits(exits: seq<ExitRow>, task: Task, spawn: string)
    requires exits == []
    ensures EndsOnce(ExitsFor(exits, task, spawn)) && NoSecondExit(exits, task, spawn)
  {
  }

  predicate IsEventOf(l: LaunchRow, task: Task, spawn: string) {
    l.kind == LaunchEvent && OfGeneration(l.repo, l.task, l.spawn, task, spawn)
  }

  /** How many launch events of the generation there are. */
  function EventsOf(launches: seq<LaunchRow>, task: Task, spawn: string): nat {
    if launches == [] then 0
    else
      EventsOf(launches[..|launches| - 1], task, spawn)
      + if IsEventOf(launches[|launches| - 1], task, spawn) then 1 else 0
  }

  lemma {:induction false} EventsAreCounted(launches: seq<LaunchRow>, task: Task, spawn: string)
    ensures LaunchEvents(launches, task, spawn) == EventsOf(launches, task, spawn)
  {
    if launches != [] {
      EventsAreCounted(launches[..|launches| - 1], task, spawn);
    }
  }

  lemma SessionsMean(idx: Index, task: Task, spawn: string)
    ensures forall x :: x in Sessions(idx, task, spawn) <==>
              || (exists e :: e in idx.exits && IsExitOf(e, task, spawn) && e.session == x)
              || (exists u :: u in idx.usage && OfGeneration(u.repo, u.task, u.spawn, task, spawn) && u.session == x)
  {
    hide ExitsFor;
    ExitsForMembers(idx.exits, task, spawn);
  }

  /** With `sessions` those an exit or usage row of the generation names, the
      attempts are at least their number and that of the launch events, and equal
      the larger exactly when no session has two exit rows. */
  lemma AttemptsMean(idx: Index, task: Task, spawn: string, sessions: set<string>)
    requires forall x :: x in sessions <==>
               || (exists e :: e in idx.exits && IsExitOf(e, task, spawn) && e.session == x)
               || (exists u :: u in idx.usage && OfGeneration(u.repo, u.task, u.spawn, task, spawn) && u.session == x)
    ensures var events := EventsOf(idx.launches, task, spawn);
            && Attempts(idx, task, spawn) >= |sessions| && Attempts(idx, task, spawn) >= events
            && (Attempts(idx, task, spawn) == (if |sessions| < events then events else |sessions|) <==>
                  NoSecondExit(idx.exits, task, spawn))
  {
    hide ExitsFor, LaunchEvents, EndsOnce, NoSecondExit, EventsOf, Attempts;
    ExitsForMembers(idx.exits, task, spawn);
    EndsOnceMeans(idx.exits, task, spawn);
    EventsAreCounted(idx.launches, task, spawn);
    AttemptsAreLarger(idx, task, spawn);
    SessionsMean(idx, task, spawn);
    assert sessions == Sessions(idx, task, spawn);
  }
}
