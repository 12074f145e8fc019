/** The cumulative rows of a segment and the order of persistence: the row that
    decides is the last one persisted, and earlier ones decide nothing. */
module DeliveryReplay {
  import opened Basics
  import opened EvidenceRecords
  import opened StableSort
  import opened TupleCapture
  import opened EvidenceIndex
  import opened EvidenceMeaning
  import opened DeliveryCost

  function SegmentOf(t: Record): Segment {
    Segment(t.payload.spawn, t.payload.session, t.payload.providerSession)
  }

  /** The record meters this segment of this task. */
  predicate Meters(scope: Scope, t: Record, task: Task, s: Segment) {
    && UsageOfLaunch(scope, t) && t.scope == task.repo && t.payload.task == task.task
    && t.payload.spawn == s.spawn && t.payload.session == s.session && t.payload.providerSession == s.providerSession
  }

  /** No record after place `i` meters the segment. */
  ghost predicate IsLastRecord(scope: Scope, records: seq<Record>, task: Task, s: Segment, i: nat) {
    && i < |records| && Meters(scope, records[i], task, s)
    && forall j :: i < j < |records| ==> !Meters(scope, records[j], task, s)
  }

  /** The usage rows are those of the captured usage events of launches, each at the
      place of its record. */
  lemma UsageMembers(scope: Scope, records: seq<Record>)
    ensures forall u :: u in IndexOf(scope, records).usage <==>
              u.position < |records| && UsageOfLaunch(scope, records[u.position])
                  && u == UsageOf(u.position, records[u.position])
  {
    hide IndexOf, IsUsage, UsageOfLaunch, UsageOf;
    UsageRows(scope, records);
    forall t
      ensures IsUsage(scope, t) <==> UsageOfLaunch(scope, t)
    {
      ExitsMean(scope, t);
    }
  }

  lemma {:induction false} UsageRows(scope: Scope, records: seq<Record>)
    ensures forall u :: u in IndexOf(scope, records).usage <==>
              u.position < |records| && IsUsage(scope, records[u.position])
                  && u == UsageOf(u.position, records[u.position])
  {
    hide IsUsage, LaunchRows, IsRejected, Prepare, IsExit, UsageOf;
    if records != [] {
      var n := |records| - 1;
      UsageRows(scope, records[..n]);
      assert UsageOf(n, records[n]).position == n by { PlaceOfUsage(n, records[n]); }
    }
  }

  lemma PlaceOfUsage(n: nat, t: Record)
    ensures UsageOf(n, t).position == n
  {
  }

  lemma ByPositionOrders()
    ensures Orders(BY_POSITION)
  {
    forall a: UsageRow, b: UsageRow, c: UsageRow
      ensures BY_POSITION(a, b) && BY_POSITION(b, c) ==> BY_POSITION(a, c)
      ensures BY_POSITION(a, b) ==> !BY_POSITION(b, a)
      ensures BY_POSITION(a, b) ==> BY_POSITION(a, c) || BY_POSITION(c, b)
    {
      var x, y, z := a.record, b.record, c.record;
      LessTotal(x, z);
      if Less(x, y) {
        LessAsymmetric(x, y);
        if Less(y, z) { LessTransitive(x, y, z); }
        if Less(z, x) { LessTransitive(z, x, y); }
      }
    }
  }

  lemma LastIsGreatest(rows: seq<UsageRow>)
    requires rows != []
    ensures var last := LastRow(PersistenceSequence, rows);
            last in rows && forall u :: u in rows ==> u.position <= last.position
  {
    hide Sort, Orders, Less;
    ByPositionOrders();
    SortInOrder(rows, BY_POSITION);
    SortPermutes(rows, BY_POSITION);
    SortKeepsLength(rows, BY_POSITION);
    var sorted := Sort(rows, BY_POSITION);
    var last := sorted[|sorted| - 1];
    assert last in sorted;
    forall u | u in rows
      ensures u.position <= last.position
    {
      assert u in sorted;
      var k :| 0 <= k < |sorted| && sorted[k] == u;
      assert k < |sorted| - 1 ==> !BY_POSITION(last, sorted[k]);
    }
  }

  /** The row with the greatest position is that of the last record that meters
      the segment. */
  lemma LastRowIsLastRecord(scope: Scope, records: seq<Record>, task: Task, s: Segment)
    requires RowsOf(IndexOf(scope, records).usage, task, s) != []
    ensures exists i: nat ::
              && IsLastRecord(scope, records, task, s, i)
              && LastRow(PersistenceSequence, RowsOf(IndexOf(scope, records).usage, task, s)) == UsageOf(i, records[i])
  {
    hide IsUsage, IndexOf, RowsOf, LastRow;
    var usage := IndexOf(scope, records).usage;
    var rows := RowsOf(usage, task, s);
    var last := LastRow(PersistenceSequence, rows);
    LastIsGreatest(rows);
    UsageMembers(scope, records);
    RowsMembers(usage, task, s);
    forall j: nat | j < |records| && Meters(scope, records[j], task, s)
      ensures UsageOf(j, records[j]) in rows
    {
      assert UsageOf(j, records[j]) in usage;
    }
    assert IsLastRecord(scope, records, task, s, last.position);
  }

  /** Under an accepted order the row that decides is that of a record that meters
      the segment, and no other such record was persisted after it, ties broken
      by id. */
  lemma LastRowIsLastPersisted(capture: Capture, scope: Scope, task: Task, s: Segment)
    requires OrderSound(capture) && capture.order.PersistenceSequence?
    requires RowsOf(IndexOf(scope, Merged(capture)).usage, task, s) != []
    ensures var records := Merged(capture);
            var rows := RowsOf(IndexOf(scope, records).usage, task, s);
            exists i: nat :: i < |records| && LastRow(capture.order, rows) == UsageOf(i, records[i])
                             && IsLatestMeter(scope, records, task, s, records[i])
  {
    hide IndexOf, RowsOf, LastRow, Merged, UsageOf;
    var records := Merged(capture);
    AcceptedOrderIsPersistence(capture);
    LastRowIsLastRecord(scope, records, task, s);
    var i: nat :| IsLastRecord(scope, records, task, s, i)
                  && LastRow(PersistenceSequence, RowsOf(IndexOf(scope, records).usage, task, s))
                     == UsageOf(i, records[i]);
    LastIsLatest(scope, records, task, s, i);
  }

  ghost predicate IsLatestMeter(scope: Scope, records: seq<Record>, task: Task, s: Segment, t: Record) {
    && t in records && Meters(scope, t, task, s)
    && forall u :: u in records && Meters(scope, u, task, s) ==> !PersistedBefore(t, u)
  }

  lemma LastIsLatest(scope: Scope, records: seq<Record>, task: Task, s: Segment, i: nat)
    requires forall k, j :: 0 <= k < j < |records| ==> !PersistedBefore(records[j], records[k])
    requires IsLastRecord(scope, records, task, s, i)
    ensures IsLatestMeter(scope, records, task, s, records[i])
  {
    hide Meters;
    forall u | u in records && Meters(scope, u, task, s)
      ensures !PersistedBefore(records[i], u)
    {
      var j :| 0 <= j < |records| && records[j] == u;
      LessIrreflexive(SortId(records[i]));
    }
  }

  /** A segment is one that some record meters. */
  lemma SegmentsAreMetered(scope: Scope, records: seq<Record>, task: Task, s: Segment)
    ensures s in Segments(IndexOf(scope, records).usage, task) <==>
              exists i :: 0 <= i < |records| && Meters(scope, records[i], task, s)
  {
    hide IsUsage, IndexOf;
    UsageMembers(scope, records);
    var usage := IndexOf(scope, records).usage;
    if i :| 0 <= i < |records| && Meters(scope, records[i], task, s) {
      assert UsageOf(i, records[i]) in usage;
    }
    if s in Segments(usage, task) {
      var u :| u in usage && u.repo == task.repo && u.task == task.task
          && Segment(u.spawn, u.session, u.providerSession) == s;
      assert Meters(scope, records[u.position], task, s);
    }
  }

  // ----- earlier rows change nothing -------------------------------------------------------

  /** The usage record `t` precedes a later record, `back[k]`,
      of the same segment. */
  ghost predicate AddsEarlier(scope: Scope, t: Record, back: seq<Record>, k: nat) {
    && IsUsage(scope, t) && k < |back|
    && Meters(scope, back[k], Task(t.scope, t.payload.task), SegmentOf(t))
  }

  lemma IndexSnoc(scope: Scope, records: seq<Record>, t: Record)
    ensures IndexOf(scope, records + [t]) == Extend(scope, IndexOf(scope, records), |records|, t)
  {
    assert (records + [t])[..|records|] == records;
  }

  lemma SnocExits(scope: Scope, records: seq<Record>, t: Record)
    ensures IndexOf(scope, records + [t]).exits ==
            IndexOf(scope, records).exits + if IsExit(scope, t) then [ExitOf(t)] else []
  {
    hide LaunchRows, IsRejected, Prepare, ExitOf, IsExit, IndexOf;
    IndexSnoc(scope, records, t);
  }

  lemma SnocLaunches(scope: Scope, records: seq<Record>, t: Record)
    ensures IndexOf(scope, records + [t]).launches == IndexOf(scope, records).launches + LaunchRows(scope, t)
  {
    hide LaunchRows, IsRejected, Prepare, ExitOf, IsExit, IndexOf;
    IndexSnoc(scope, records, t);
  }

  lemma {:induction false} SameExits(scope: Scope, front: seq<Record>, t: Record, back: seq<Record>)
    requires IsUsage(scope, t)
    ensures IndexOf(scope, front + [t] + back).exits == IndexOf(scope, front + back).exits
  {
    hide IndexOf, ExitOf;
    if back == [] {
      assert front + [t] + back == front + [t] && front + back == front;
      SnocExits(scope, front, t);
    } else {
      var m := |back| - 1;
      SameExits(scope, front, t, back[..m]);
      SnocExits(scope, front + [t] + back[..m], back[m]);
      SnocExits(scope, front + back[..m], back[m]);
      Regroup(front, t, back);
    }
  }

  lemma Regroup(front: seq<Record>, t: Record, back: seq<Record>)
    requires back != []
    ensures var m := |back| - 1;
            front + [t] + back[..m] + [back[m]] == front + [t] + back && front + back[..m] + [back[m]] == front + back
  {
  }

  lemma {:induction false} EventsAppend(a: seq<LaunchRow>, b: seq<LaunchRow>, task: Task, spawn: string)
    ensures LaunchEvents(a + b, task, spawn) == LaunchEvents(a, task, spawn) + LaunchEvents(b, task, spawn)
  {
    if b == [] {
      assert a + b == a;
    } else {
      assert (a + b)[..|a + b| - 1] == a + b[..|b| - 1];
      EventsAppend(a, b[..|b| - 1], task, spawn);
    }
  }

  lemma {:induction false} SameEvents(scope: Scope, front: seq<Record>, t: Record, back: seq<Record>, task: Task,
      spawn: string)
    requires IsUsage(scope, t)
    ensures LaunchEvents(IndexOf(scope, front + [t] + back).launches, task, spawn)
            == LaunchEvents(IndexOf(scope, front + back).launches, task, spawn)
  {
    hide IndexOf, LaunchRows, LaunchEvents, IsUsage;
    if back == [] {
      assert front + [t] + back == front + [t] && front + back == front;
      SnocLaunches(scope, front, t);
      EventsAppend(IndexOf(scope, front).launches, LaunchRows(scope, t), task, spawn);
      UsageIsNoEvent(scope, t, task, spawn);
    } else {
      var m := |back| - 1;
      SameEvents(scope, front, t, back[..m], task, spawn);
      SnocLaunches(scope, front + [t] + back[..m], back[m]);
      SnocLaunches(scope, front + back[..m], back[m]);
      EventsAppend(IndexOf(scope, front + [t] + back[..m]).launches, LaunchRows(scope, back[m]), task, spawn);
      EventsAppend(IndexOf(scope, front + back[..m]).launches, LaunchRows(scope, back[m]), task, spawn);
      Regroup(front, t, back);
    }
  }

  lemma UsageIsNoEvent(scope: Scope, t: Record, task: Task, spawn: string)
    requires IsUsage(scope, t)
    ensures LaunchEvents(LaunchRows(scope, t), task, spawn) == 0
  {
    var l := Launch(t, Some(t.payload.session), TimeAt(t.payload.observedAt), UsageRecord);
    assert LaunchRows(scope, t) == [l];
    assert [l][..0] == [];
  }

  /** Where a record of `front + back` stands once `t` is put in between. */
  function Shift(front: nat, i: nat): nat {
    if i < front then i else i + 1
  }

  lemma ShiftedLast(scope: Scope, front: seq<Record>, t: Record, back: seq<Record>, k: nat, task: Task, s: Segment,
      i: nat)
    requires AddsEarlier(scope, t, back, k) && IsLastRecord(scope, front + back, task, s, i)
    ensures IsLastRecord(scope, front + [t] + back, task, s, Shift(|front|, i))
    ensures (front + [t] + back)[Shift(|front|, i)] == (front + back)[i]
  {
    hide IsUsage;
    var more, records := front + [t] + back, front + back;
    assert records[|front| + k] == back[k];
    forall j | Shift(|front|, i) < j < |more|
      ensures !Meters(scope, more[j], task, s)
    {
      if j < |front| {
        assert more[j] == records[j];
      } else if j > |front| {
        assert more[j] == records[j - 1];
      } else {
        assert more[j] == t;
      }
    }
  }

  lemma SameSegments(scope: Scope, front: seq<Record>, t: Record, back: seq<Record>, k: nat, task: Task)
    requires AddsEarlier(scope, t, back, k)
    ensures Segments(IndexOf(scope, front + [t] + back).usage, task)
            == Segments(IndexOf(scope, front + back).usage, task)
  {
    hide IsUsage, IndexOf, Segments;
    var more, records := front + [t] + back, front + back;
    forall s
      ensures s in Segments(IndexOf(scope, more).usage, task) <==> s in Segments(IndexOf(scope, records).usage, task)
    {
      SegmentsAreMetered(scope, more, task, s);
      SegmentsAreMetered(scope, records, task, s);
      if i :| 0 <= i < |records| && Meters(scope, records[i], task, s) {
        assert more[Shift(|front|, i)] == records[i];
      }
      if i :| 0 <= i < |more| && Meters(scope, more[i], task, s) {
        var j := if i < |front| then i else if i > |front| then i - 1 else |front| + k;
        assert Meters(scope, records[j], task, s);
      }
    }
  }

  lemma SameClose(scope: Scope, front: seq<Record>, t: Record, back: seq<Record>, k: nat, task: Task, s: Segment)
    requires AddsEarlier(scope, t, back, k)
    requires s in Segments(IndexOf(scope, front + back).usage, task)
    ensures s in Segments(IndexOf(scope, front + [t] + back).usage, task)
    ensures RowsOf(IndexOf(scope, front + [t] + back).usage, task, s) != []
            && RowsOf(IndexOf(scope, front + back).usage, task, s) != []
    ensures Close(PersistenceSequence, IndexOf(scope, front + [t] + back), task, s)
            == Close(PersistenceSequence, IndexOf(scope, front + back), task, s)
  {
    hide IndexOf, Segments, RowsOf, LastRow, SegmentFinality, Meters, IsUsage;
    var more, records := front + [t] + back, front + back;
    SameSegments(scope, front, t, back, k, task);
    SegmentHasRows(IndexOf(scope, more).usage, task, s);
    SegmentHasRows(IndexOf(scope, records).usage, task, s);
    SameExits(scope, front, t, back);
    LastRowIsLastRecord(scope, records, task, s);
    LastRowIsLastRecord(scope, more, task, s);
    var i: nat :| IsLastRecord(scope, records, task, s, i)
             && LastRow(PersistenceSequence, RowsOf(IndexOf(scope, records).usage, task, s)) == UsageOf(i, records[i]);
    var j: nat :| IsLastRecord(scope, more, task, s, j)
             && LastRow(PersistenceSequence, RowsOf(IndexOf(scope, more).usage, task, s)) == UsageOf(j, more[j]);
    ShiftedLast(scope, front, t, back, k, task, s, i);
    LastIsOne(scope, more, task, s, j, Shift(|front|, i));
    SameFinality(UsageOf(i, records[i]), UsageOf(j, more[j]));
  }

  lemma SameFinality(a: UsageRow, b: UsageRow)
    requires a.state == b.state
    ensures forall exit :: SegmentFinality(a, exit) == SegmentFinality(b, exit)
  {
  }

  lemma LastIsOne(scope: Scope, records: seq<Record>, task: Task, s: Segment, i: nat, j: nat)
    requires IsLastRecord(scope, records, task, s, i) && IsLastRecord(scope, records, task, s, j)
    ensures i == j
  {
  }

  lemma SameClosings(scope: Scope, front: seq<Record>, t: Record, back: seq<Record>, k: nat, task: Task)
    requires AddsEarlier(scope, t, back, k)
    ensures Closings(PersistenceSequence, IndexOf(scope, front + [t] + back), task)
            == Closings(PersistenceSequence, IndexOf(scope, front + back), task)
  {
    hide IndexOf, Close, Segments, RowsOf, AddsEarlier;
    var a, b := IndexOf(scope, front + [t] + back), IndexOf(scope, front + back);
    SameSegments(scope, front, t, back, k, task);
    var m, n := Closings(PersistenceSequence, a, task), Closings(PersistenceSequence, b, task);
    assert m.Keys == n.Keys;
    forall s | s in n
      ensures m[s] == n[s]
    {
      SameClose(scope, front, t, back, k, task, s);
    }
  }

  // ----- the whole delivery ------------------------------------------------------------------

  lemma SameSpawns(scope: Scope, front: seq<Record>, t: Record, back: seq<Record>, k: nat, task: Task, spawn: string)
    requires AddsEarlier(scope, t, back, k)
    ensures Metered(IndexOf(scope, front + [t] + back).usage, task, spawn)
            == Metered(IndexOf(scope, front + back).usage, task, spawn)
  {
    hide IndexOf, AddsEarlier;
    var a, b := IndexOf(scope, front + [t] + back).usage, IndexOf(scope, front + back).usage;
    SameSegments(scope, front, t, back, k, task);
    MeteredIsSegments(a, task, spawn);
    MeteredIsSegments(b, task, spawn);
  }

  lemma MeteredIsSegments(usage: seq<UsageRow>, task: Task, spawn: string)
    ensures Metered(usage, task, spawn) == set s | s in Segments(usage, task) && s.spawn == spawn :: s.session
  {
    forall session | session in Metered(usage, task, spawn)
      ensures session in set s | s in Segments(usage, task) && s.spawn == spawn :: s.session
    {
      var u :| u in usage && Ran(u.repo, u.task, u.spawn, task, spawn) && u.session == session;
      assert Segment(u.spawn, u.session, u.providerSession) in Segments(usage, task);
    }
    forall session | session in set s | s in Segments(usage, task) && s.spawn == spawn :: s.session
      ensures session in Metered(usage, task, spawn)
    {
      var s :| s in Segments(usage, task) && s.spawn == spawn && s.session == session;
      var u :| u in usage && u.repo == task.repo && u.task == task.task
          && Segment(u.spawn, u.session, u.providerSession) == s;
      assert Ran(u.repo, u.task, u.spawn, task, spawn);
    }
  }

  /** A launch row of the task and generation. */
  ghost predicate RanIn(scope: Scope, records: seq<Record>, task: Task, spawn: string) {
    exists t, l :: t in records && l in LaunchRows(scope, t) && Ran(l.repo, l.task, l.spawn, task, spawn)
  }

  /** Exits and usage rows are launches too: the launches name every generation. */
  lemma GenerationsRan(scope: Scope, records: seq<Record>, task: Task)
    ensures forall spawn :: spawn in Generations(IndexOf(scope, records), task) <==> RanIn(scope, records, task, spawn)
  {
    hide IndexOf, IsExit, IsUsage, LaunchRows;
    var idx := IndexOf(scope, records);
    LaunchMembers(scope, records);
    ExitMembers(scope, records);
    UsageMembers(scope, records);
    forall e | e in idx.exits && e.repo == task.repo && e.task == task.task
      ensures RanIn(scope, records, task, e.spawn)
    {
      var t :| t in records && IsExit(scope, t) && e == ExitOf(t);
      ExitIsLaunch(scope, t);
    }
    forall u | u in idx.usage && u.repo == task.repo && u.task == task.task
      ensures RanIn(scope, records, task, u.spawn)
    {
      UsageIsLaunch(scope, records[u.position]);
    }
    forall l | l in idx.launches && l.repo == task.repo && l.task == task.task
      ensures RanIn(scope, records, task, l.spawn)
    {
    }
    forall spawn | RanIn(scope, records, task, spawn)
      ensures spawn in Generations(idx, task)
    {
      var t, l :| t in records && l in LaunchRows(scope, t) && Ran(l.repo, l.task, l.spawn, task, spawn);
      assert l in idx.launches;
    }
  }

  lemma ExitIsLaunch(scope: Scope, t: Record)
    requires IsExit(scope, t)
    ensures exists l :: && l in LaunchRows(scope, t) && l.repo == t.scope
                        && l.task == t.payload.task && l.spawn == t.payload.spawn
  {
    assert Launch(t, Some(t.payload.session), TimeAt(t.payload.launchedAt), ExitRecord) in LaunchRows(scope, t);
  }

  lemma UsageIsLaunch(scope: Scope, t: Record)
    requires IsUsage(scope, t)
    ensures exists l :: && l in LaunchRows(scope, t) && l.repo == t.scope
                        && l.task == t.payload.task && l.spawn == t.payload.spawn
    ensures forall l :: l in LaunchRows(scope, t) ==>
            l.repo == t.scope && l.task == t.payload.task && l.spawn == t.payload.spawn
  {
    assert Launch(t, Some(t.payload.session), TimeAt(t.payload.observedAt), UsageRecord) in LaunchRows(scope, t);
  }

  lemma SameGenerations(scope: Scope, front: seq<Record>, t: Record, back: seq<Record>, k: nat, task: Task)
    requires AddsEarlier(scope, t, back, k)
    ensures Generations(IndexOf(scope, front + [t] + back), task) == Generations(IndexOf(scope, front + back), task)
  {
    hide IndexOf, Generations, LaunchRows, IsUsage;
    var more, records := front + [t] + back, front + back;
    GenerationsRan(scope, more, task);
    GenerationsRan(scope, records, task);
    UsageIsLaunch(scope, t);
    ExitsMean(scope, back[k]);
    UsageIsLaunch(scope, back[k]);
    assert back[k] in records;
    assert forall r :: r in more <==> r in records || r == t;
  }

  lemma SameAttempts(scope: Scope, front: seq<Record>, t: Record, back: seq<Record>, k: nat, task: Task, spawn: string)
    requires AddsEarlier(scope, t, back, k)
    ensures Attempts(IndexOf(scope, front + [t] + back), task, spawn)
            == Attempts(IndexOf(scope, front + back), task, spawn)
  {
    hide IndexOf, Metered, ExitsFor, LaunchEvents, Ended;
    SameSpawns(scope, front, t, back, k, task, spawn);
    SameExits(scope, front, t, back);
    SameEvents(scope, front, t, back, task, spawn);
  }

  lemma {:induction false} SameSum(a: Index, b: Index, task: Task, spawns: set<string>)
    requires forall s :: s in spawns ==> Attempts(a, task, s) == Attempts(b, task, s)
    ensures SumAttempts(a, task, spawns) == SumAttempts(b, task, spawns)
    decreases spawns
  {
    hide Attempts;
    if spawns != {} {
      var s :| s in spawns;
      SameSum(a, b, task, spawns - {s});
      AttemptsWithout(a, task, spawns, s);
      AttemptsWithout(b, task, spawns, s);
    }
  }

  /** A usage record anywhere before another of its segment changes nothing that the
      cost of a delivery depends on. */
  lemma EarlierRowChangesNothing(scope: Scope, front: seq<Record>, t: Record, back: seq<Record>, k: nat, task: Task)
    requires AddsEarlier(scope, t, back, k)
    ensures var a, b := IndexOf(scope, front + [t] + back), IndexOf(scope, front + back);
            && Closings(PersistenceSequence, a, task) == Closings(PersistenceSequence, b, task)
            && Generations(a, task) == Generations(b, task)
            && SumAttempts(a, task, Generations(a, task)) == SumAttempts(b, task, Generations(b, task))
  {
    hide IndexOf, AddsEarlier, Closings, Generations, Attempts, IsCostOf;
    var a, b := IndexOf(scope, front + [t] + back), IndexOf(scope, front + back);
    SameClosings(scope, front, t, back, k, task);
    SameGenerations(scope, front, t, back, k, task);
    forall s | s in Generations(b, task)
      ensures Attempts(a, task, s) == Attempts(b, task, s)
    {
      SameAttempts(scope, front, t, back, k, task, s);
    }
    SameSum(a, b, task, Generations(b, task));
  }

  // ----- captures with one record more -----------------------------------------------------

  /** What a report on this capture may say of the delivery. */
  ghost predicate IsCostIn(cost: Cost, capture: Capture, scope: Scope, task: Task) {
    var idx := IndexOf(scope, Merged(capture));
    var generations := Generations(idx, task);
    IsCostOf(cost, Closings(capture.order, idx, task), generations, SumAttempts(idx, task, generations))
  }

  /** `b` is `a` with one record more, on the page or in the closure. */
  ghost predicate AddsRecord(a: Capture, t: Record, b: Capture, i: nat) {
    || (&& i <= |a.tuples| && b.tuples == a.tuples[..i] + [t] + a.tuples[i..] && b.references == a.references
        && forall r :: r in a.references && r.id.Some? ==> r.id != t.id)
    || (&& i <= |a.references| && b.references == a.references[..i] + [t] + a.references[i..] && b.tuples == a.tuples
        && !OnPage(a.tuples, t))
  }

  lemma {:induction false} NewReferencesAppend(tuples: seq<Record>, a: seq<Record>, b: seq<Record>)
    ensures NewReferences(tuples, a + b) == NewReferences(tuples, a) + NewReferences(tuples, b)
  {
    hide OnPage;
    if b == [] {
      assert a + b == a;
    } else {
      assert (a + b)[..|a + b| - 1] == a + b[..|b| - 1];
      NewReferencesAppend(tuples, a, b[..|b| - 1]);
    }
  }

  lemma {:induction false} NewReferencesKept(a: seq<Record>, b: seq<Record>, references: seq<Record>)
    requires forall r :: r in references ==> (OnPage(a, r) <==> OnPage(b, r))
    ensures NewReferences(a, references) == NewReferences(b, references)
  {
    hide OnPage;
    if references != [] {
      NewReferencesKept(a, b, references[..|references| - 1]);
    }
  }

  lemma PageGrows(tuples: seq<Record>, t: Record, i: nat, r: Record)
    requires i <= |tuples| && (r.id.Some? ==> r.id != t.id)
    ensures OnPage(tuples[..i] + [t] + tuples[i..], r) <==> OnPage(tuples, r)
  {
    assert tuples == tuples[..i] + tuples[i..];
  }

  function Unsorted(capture: Capture): seq<Record> {
    capture.tuples + NewReferences(capture.tuples, capture.references)
  }

  /** Before they are sorted, the merged records have the new one somewhere. */
  lemma AddedSomewhere(a: Capture, t: Record, b: Capture, i: nat) returns (x: seq<Record>, y: seq<Record>)
    requires AddsRecord(a, t, b, i)
    ensures Unsorted(a) == x + y && Unsorted(b) == x + [t] + y
  {
    hide NewReferences, OnPage;
    if b.references == a.references && i <= |a.tuples| && b.tuples == a.tuples[..i] + [t] + a.tuples[i..] {
      forall r | r in a.references
        ensures OnPage(a.tuples, r) <==> OnPage(b.tuples, r)
      {
        PageGrows(a.tuples, t, i, r);
      }
      NewReferencesKept(a.tuples, b.tuples, a.references);
      x, y := a.tuples[..i], a.tuples[i..] + NewReferences(a.tuples, a.references);
    } else {
      var front, back := a.references[..i], a.references[i..];
      assert a.references == front + back;
      NewReferencesAppend(a.tuples, front, back);
      NewReferencesAppend(a.tuples, front + [t], back);
      NewReferencesAppend(a.tuples, front, [t]);
      NewReferencesOne(a.tuples, t);
      x, y := a.tuples + NewReferences(a.tuples, front), NewReferences(a.tuples, back);
    }
  }

  lemma NewReferencesOne(tuples: seq<Record>, t: Record)
    requires !OnPage(tuples, t)
    ensures NewReferences(tuples, [t]) == [t]
  {
    assert [t][..0] == [];
  }

  lemma MergedIsSorted(capture: Capture)
    requires OrderSound(capture) && capture.order.PersistenceSequence?
    ensures Merged(capture) == Sort(Unsorted(capture), BY_PLACE)
  {
    SubstantiatedPlaced(capture.tuples, capture.references);
  }

  /** An accepted capture with one more usage record, persisted before another of
      its segment, reports the same cost of every delivery. */
  lemma EarlierUsageChangesNothing(a: Capture, t: Record, b: Capture, i: nat, u: Record, scope: Scope, task: Task)
    requires OrderSound(a) && a.order.PersistenceSequence? && OrderSound(b) && b.order.PersistenceSequence?
    requires AddsRecord(a, t, b, i) && UsageOfLaunch(scope, t)
    requires u in Merged(a) && Meters(scope, u, Task(t.scope, t.payload.task), SegmentOf(t)) && PersistedBefore(t, u)
    ensures forall cost :: IsCostIn(cost, b, scope, task) <==> IsCostIn(cost, a, scope, task)
  {
    hide OrderSound, AddsRecord, Merged, IsUsage, UsageOfLaunch, Meters, Sort, IsCostOf, IndexOf, Closings, Generations,
         SumAttempts,
         Orders;
    ExitsMean(scope, t);
    assert BY_PLACE(t, u) by { ByPlaceMeans(t, u); }
    var x, y := AddedSomewhere(a, t, b, i);
    MergedIsSorted(a);
    MergedIsSorted(b);
    ByPlaceOrders();
    var front, back := SortAround(x, t, y, BY_PLACE);
    assert u in back;
    var k :| 0 <= k < |back| && back[k] == u;
    EarlierRowChangesNothing(scope, front, t, back, k, task);
    assert a.order == PersistenceSequence == b.order;
    forall cost
      ensures IsCostIn(cost, b, scope, task) <==> IsCostIn(cost, a, scope, task)
    {
      assert Merged(b) == front + [t] + back && Merged(a) == front + back;
    }
  }

  /** The contract of a delivery's cost decides every figure. */
  lemma CostIsDetermined(c: Cost, d: Cost, m: map<Segment, Closing>, generations: set<string>, attempts: int)
    requires IsCostOf(c, m, generations, attempts) && IsCostOf(d, m, generations, attempts)
    requires forall s :: s in m ==> s.spawn in generations
    ensures c == d
  {
    if m != map[] {
      var s :| s in m;
      assert s.spawn in generations;
    }
  }
}
