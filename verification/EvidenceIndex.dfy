/** `build_index` of `bbs_report.rs`: one loop over the merged records that sorts
    every admitted observation into its table.  Each table is specified by a
    predicate on single records. */
module EvidenceIndex {
  import opened Basics
  import opened EvidenceRecords

  datatype Window = Window(since: Option<Time>, until: Option<Time>)

  datatype WindowFit = Inside | Outside | Undated

  function Fit(window: Window, at: Option<Time>): WindowFit {
    if window.since.None? && window.until.None? then Inside
    else if at.None? then Undated
    else if || (window.since.Some? && at.value < window.since.value)
            || (window.until.Some? && at.value > window.until.value)
    then Outside else Inside
  }

  /** The frozen scope of an experiment: repositories, none meaning all, and a
      window. */
  datatype Scope = Scope(repos: seq<string>, window: Window)

  predicate InScope(scope: Scope, repo: string) {
    scope.repos == [] || repo in scope.repos
  }

  function TimeAt(m: Moment): Option<Time> {
    match m case At(t) => Some(t) case _ => None
  }

  predicate Admits(scope: Scope, t: Record, at: Option<Time>) {
    InScope(scope, t.scope) && Fit(scope.window, at) == Inside
  }

  // ----- rows --------------------------------------------------------------------------

  datatype LaunchKind = ExitRecord | UsageRecord | HarnessResult | LaunchEvent | AuthoredRecord

  datatype LaunchRow = LaunchRow(
    repo: string, task: string, spawn: string, session: Option<string>, at: Option<Time>, record: string,
    kind: LaunchKind)

  datatype ExitRow = ExitRow(
    repo: string, task: string, agent: string, spawn: string, session: string, exitedAt: Option<Time>,
    staleSession: Option<bool>, priorState: Option<string>, costCoverage: Option<string>, record: string)

  datatype UsageRow = UsageRow(
    repo: string, task: string, agent: string, spawn: string, session: string, providerSession: Option<string>,
    state: Option<string>, costUsd: Option<real>, costBasis: string, observedAt: Option<Time>, position: nat,
    record: string)

  datatype Placed = Placed(position: nat, record: Record)

  /** A source shown to a generation in a repository. */
  datatype Exposure = Exposure(repo: string, source: string, spawn: string)

  datatype Index = Index(
    byId: ById,
    prepared: map<Exposure, string>,
    opens: set<Exposure>,
    launches: seq<LaunchRow>,
    exits: seq<ExitRow>,
    usage: seq<UsageRow>,
    receipts: seq<Record>,
    verdicts: seq<Placed>,
    rejected: set<string>)

  const EMPTY := Index(map[], map[], {}, [], [], [], [], [], {})

  // ----- which record is what -------------------------------------------------------------

  predicate IsTelemetry(t: Record) {
    t.kind.Kind? && t.kind.name in {EXPOSURE, OPEN, AGENT_EXIT, AGENT_FINAL_USAGE}
  }

  predicate IsPlainEvent(t: Record) {
    IsHarnessResult(t) || IsLaunchEvent(t) || IsTaskSpan(t)
  }

  predicate BoundToAgent(scope: Scope, t: Record, kind: string) {
    ClaimsKind(t, kind) && TelemetryOk(t, kind) && Admits(scope, t, t.createdAt) && t.payload.bound == "agent"
  }

  predicate IsExposure(scope: Scope, t: Record) {
    BoundToAgent(scope, t, EXPOSURE) && t.payload.spawn != "" && t.payload.entries.Some?
  }

  predicate IsOpen(scope: Scope, t: Record) {
    BoundToAgent(scope, t, OPEN) && t.payload.spawn != "" && t.payload.source != ""
  }

  predicate Attributed(scope: Scope, t: Record, kind: string, at: Option<Time>) {
    ClaimsKind(t, kind) && TelemetryOk(t, kind) && !IsBlank(t.payload.task) && Admits(scope, t, at)
  }

  predicate NamesLaunch(t: Record) {
    t.payload.spawn != "" && t.payload.session != ""
  }

  predicate IsExit(scope: Scope, t: Record) {
    Attributed(scope, t, AGENT_EXIT, TimeAt(t.payload.exitedAt)) && NamesLaunch(t)
  }

  predicate IsUsage(scope: Scope, t: Record) {
    Attributed(scope, t, AGENT_FINAL_USAGE, TimeAt(t.payload.observedAt)) && NamesLaunch(t) && t.payload.costBasis != ""
  }

  predicate IsCompletion(scope: Scope, t: Record) {
    !IsTelemetry(t) && IsHarnessResult(t) && Admits(scope, t, t.createdAt) && t.payload.spawn != ""
  }

  predicate IsSpawned(scope: Scope, t: Record) {
    !IsTelemetry(t) && IsLaunchEvent(t) && Admits(scope, t, t.createdAt) && t.payload.spawn != ""
  }

  predicate IsReceipt(scope: Scope, t: Record) {
    ClaimsKind(t, REUSE) && !IsPlainEvent(t) && ArtifactOk(t, REUSE) && Admits(scope, t, t.createdAt)
  }

  predicate IsVerdict(scope: Scope, t: Record) {
    ClaimsKind(t, ASSESSMENT) && !IsPlainEvent(t) && AssessmentOk(t) && Admits(scope, t, t.createdAt)
        && t.payload.receipt != ""
  }

  predicate IsFinding(t: Record) {
    ClaimsKind(t, FINDING) && !IsPlainEvent(t) && ArtifactOk(t, FINDING)
  }

  predicate NamesSource(entry: Option<string>) {
    entry.Some? && !IsBlank(entry.value)
  }

  /** The record is reported as invalid. */
  predicate IsRejected(scope: Scope, t: Record) {
    if ClaimsKind(t, EXPOSURE) then
      !TelemetryOk(t, EXPOSURE) ||
      (BoundToAgent(scope, t, EXPOSURE) &&
       (t.payload.spawn == "" || t.payload.entries.None?
           || exists e :: e in t.payload.entries.value && !NamesSource(e)))
    else if ClaimsKind(t, OPEN) then
      !TelemetryOk(t, OPEN) || (BoundToAgent(scope, t, OPEN) && (t.payload.spawn == "" || t.payload.source == ""))
    else if ClaimsKind(t, AGENT_EXIT) then
      !TelemetryOk(t, AGENT_EXIT) || (Attributed(scope, t, AGENT_EXIT, TimeAt(t.payload.exitedAt)) && !NamesLaunch(t))
    else if ClaimsKind(t, AGENT_FINAL_USAGE) then
      !TelemetryOk(t, AGENT_FINAL_USAGE) ||
      (Attributed(scope, t, AGENT_FINAL_USAGE, TimeAt(t.payload.observedAt))
          && (!NamesLaunch(t) || t.payload.costBasis == ""))
    else if IsHarnessResult(t) || IsLaunchEvent(t) then false
    else if IsTaskSpan(t) then !t.spanOk
    else if ClaimsKind(t, REUSE) then !ArtifactOk(t, REUSE)
    else if ClaimsKind(t, ASSESSMENT) then
      !AssessmentOk(t) || (Admits(scope, t, t.createdAt) && t.payload.receipt == "")
    else ClaimsKind(t, FINDING) && !ArtifactOk(t, FINDING)
  }

  function Launch(t: Record, session: Option<string>, at: Option<Time>, kind: LaunchKind): LaunchRow {
    LaunchRow(t.scope, t.payload.task, t.payload.spawn, session, at, RecordId(t), kind)
  }

  /** Every record that proves its generation ran is one launch row. */
  function LaunchRows(scope: Scope, t: Record): seq<LaunchRow> {
    if IsExit(scope, t) then [Launch(t, Some(t.payload.session), TimeAt(t.payload.launchedAt), ExitRecord)]
    else if IsUsage(scope, t) then [Launch(t, Some(t.payload.session), TimeAt(t.payload.observedAt), UsageRecord)]
    else if IsCompletion(scope, t) then [Launch(t, None, t.createdAt, HarnessResult)]
    else if IsSpawned(scope, t) then [Launch(t, None, t.createdAt, LaunchEvent)]
    else if (IsReceipt(scope, t) || IsFinding(t)) && t.payload.spawn != "" then
      [Launch(t, None, t.createdAt, AuthoredRecord)]
    else []
  }

  function ExitOf(t: Record): ExitRow {
    ExitRow(t.scope, t.payload.task, t.payload.agent, t.payload.spawn, t.payload.session, TimeAt(t.payload.exitedAt),
            t.payload.staleSession, t.payload.priorState, t.payload.costCoverage, RecordId(t))
  }

  function UsageOf(position: nat, t: Record): UsageRow {
    UsageRow(t.scope, t.payload.task, t.payload.agent, t.payload.spawn, t.payload.session, t.payload.providerSession,
             t.payload.state, t.payload.costUsd, t.payload.costBasis, TimeAt(t.payload.observedAt), position,
             RecordId(t))
  }

  function Prepare(prepared: map<Exposure, string>, t: Record, entries: seq<Option<string>>): map<Exposure, string> {
    if entries == [] then prepared
    else
      var n := |entries| - 1;
      var before := Prepare(prepared, t, entries[..n]);
      if !NamesSource(entries[n]) then before
      else before[Exposure(t.scope, entries[n].value, t.payload.spawn) := RecordId(t)]
  }

  /** The index with one more record. */
  function Extend(scope: Scope, idx: Index, position: nat, t: Record): Index {
    Index(
      if t.id.Some? then idx.byId[t.id.value := t] else idx.byId,
      if IsExposure(scope, t) then Prepare(idx.prepared, t, t.payload.entries.value) else idx.prepared,
      if IsOpen(scope, t) then idx.opens + {Exposure(t.scope, t.payload.source, t.payload.spawn)} else idx.opens,
      idx.launches + LaunchRows(scope, t),
      if IsExit(scope, t) then idx.exits + [ExitOf(t)] else idx.exits,
      if IsUsage(scope, t) then idx.usage + [UsageOf(position, t)] else idx.usage,
      if IsReceipt(scope, t) then idx.receipts + [t] else idx.receipts,
      if IsVerdict(scope, t) then idx.verdicts + [Placed(position, t)] else idx.verdicts,
      if IsRejected(scope, t) then idx.rejected + {RecordId(t)} else idx.rejected)
  }

  function IndexOf(scope: Scope, records: seq<Record>): Index {
    if records == [] then EMPTY
    else Extend(scope, IndexOf(scope, records[..|records| - 1]), |records| - 1, records[|records| - 1])
  }

  // ----- the loop ----------------------------------------------------------------------------

  /** The tables while they are filled. */
  class Builder {
    const scope: Scope
    var idx: Index

    constructor (scope: Scope)
      ensures this.scope == scope && idx == EMPTY
    {
      this.scope := scope;
      idx := EMPTY;
    }

    method Reject(t: Record)
      modifies this
      ensures idx == old(idx).(rejected := old(idx).rejected + {RecordId(t)})
    {
      idx := idx.(rejected := idx.rejected + {RecordId(t)});
    }

    method AddLaunch(row: LaunchRow)
      modifies this
      ensures idx == old(idx).(launches := old(idx).launches + [row])
    {
      idx := idx.(launches := idx.launches + [row]);
    }

    method AddExposure(t: Record)
      requires ClaimsKind(t, EXPOSURE)
      modifies this
      ensures idx == Extend(scope, old(idx), 0, t).(byId := old(idx).byId)
    {
      if !TelemetryOk(t, EXPOSURE) {
        Reject(t);
        return;
      }
      if !Admits(scope, t, t.createdAt) || t.payload.bound != "agent" {
        return;
      }
      if t.payload.spawn == "" || t.payload.entries.None? {
        Reject(t);
        return;
      }
      var entries := t.payload.entries.value;
      ghost var before := idx;
      var bad := false;
      for i := 0 to |entries|
        invariant bad <==> exists k :: 0 <= k < i && !NamesSource(entries[k])
        invariant idx == before.(prepared := Prepare(before.prepared, t, entries[..i]),
                                 rejected := if bad then before.rejected + {RecordId(t)} else before.rejected)
      {
        assert entries[..i + 1][..i] == entries[..i];
        if NamesSource(entries[i]) {
          idx := idx.(prepared := idx.prepared[Exposure(t.scope, entries[i].value, t.payload.spawn) := RecordId(t)]);
        } else {
          Reject(t);
          bad := true;
        }
      }
      assert entries[..|entries|] == entries;
      assert bad <==> exists e :: e in entries && !NamesSource(e);
    }

    method AddOpen(t: Record)
      requires ClaimsKind(t, OPEN)
      modifies this
      ensures idx == Extend(scope, old(idx), 0, t).(byId := old(idx).byId)
    {
      if !TelemetryOk(t, OPEN) {
        Reject(t);
      } else if Admits(scope, t, t.createdAt) && t.payload.bound == "agent" {
        if t.payload.spawn == "" || t.payload.source == "" {
          Reject(t);
        } else {
          idx := idx.(opens := idx.opens + {Exposure(t.scope, t.payload.source, t.payload.spawn)});
        }
      }
    }

    method AddExit(t: Record)
      requires ClaimsKind(t, AGENT_EXIT)
      modifies this
      ensures idx == Extend(scope, old(idx), 0, t).(byId := old(idx).byId)
    {
      if !TelemetryOk(t, AGENT_EXIT) {
        Reject(t);
      } else if !IsBlank(t.payload.task) && Admits(scope, t, TimeAt(t.payload.exitedAt)) {
        if t.payload.spawn == "" || t.payload.session == "" {
          Reject(t);
        } else {
          AddLaunch(Launch(t, Some(t.payload.session), TimeAt(t.payload.launchedAt), ExitRecord));
          idx := idx.(exits := idx.exits + [ExitOf(t)]);
        }
      }
    }

    method AddUsage(position: nat, t: Record)
      requires ClaimsKind(t, AGENT_FINAL_USAGE)
      modifies this
      ensures idx == Extend(scope, old(idx), position, t).(byId := old(idx).byId)
    {
      if !TelemetryOk(t, AGENT_FINAL_USAGE) {
        Reject(t);
      } else if !IsBlank(t.payload.task) && Admits(scope, t, TimeAt(t.payload.observedAt)) {
        if t.payload.spawn == "" || t.payload.session == "" || t.payload.costBasis == "" {
          Reject(t);
        } else {
          AddLaunch(Launch(t, Some(t.payload.session), TimeAt(t.payload.observedAt), UsageRecord));
          idx := idx.(usage := idx.usage + [UsageOf(position, t)]);
        }
      }
    }

    /** Receipts, assessments and findings. */
    method AddArtifact(position: nat, t: Record)
      requires !IsTelemetry(t) && !IsPlainEvent(t)
      modifies this
      ensures idx == Extend(scope, old(idx), position, t).(byId := old(idx).byId)
    {
      if ClaimsKind(t, REUSE) {
        if !ArtifactOk(t, REUSE) {
          Reject(t);
        } else if Admits(scope, t, t.createdAt) {
          if t.payload.spawn != "" {
            AddLaunch(Launch(t, None, t.createdAt, AuthoredRecord));
          }
          idx := idx.(receipts := idx.receipts + [t]);
        }
      } else if ClaimsKind(t, ASSESSMENT) {
        if !AssessmentOk(t) {
          Reject(t);
        } else if Admits(scope, t, t.createdAt) {
          if t.payload.receipt == "" {
            Reject(t);
          } else {
            idx := idx.(verdicts := idx.verdicts + [Placed(position, t)]);
          }
        }
      } else if ClaimsKind(t, FINDING) {
        if !ArtifactOk(t, FINDING) {
          Reject(t);
        } else if t.payload.spawn != "" {
          AddLaunch(Launch(t, None, t.createdAt, AuthoredRecord));
        }
      }
    }

    /** Completions, launch events and phase spans. */
    method AddEvent(t: Record)
      requires !IsTelemetry(t) && IsPlainEvent(t)
      modifies this
      ensures idx == Extend(scope, old(idx), 0, t).(byId := old(idx).byId)
    {
      if IsHarnessResult(t) {
        if Admits(scope, t, t.createdAt) && t.payload.spawn != "" {
          AddLaunch(Launch(t, None, t.createdAt, HarnessResult));
        }
      } else if IsLaunchEvent(t) {
        if Admits(scope, t, t.createdAt) && t.payload.spawn != "" {
          AddLaunch(Launch(t, None, t.createdAt, LaunchEvent));
        }
      } else if !t.spanOk {
        Reject(t);
      }
    }

    /** The body of the loop. */
    method Add(position: nat, t: Record)
      modifies this
      ensures idx == Extend(scope, old(idx), position, t)
    {
      if t.id.Some? {
        idx := idx.(byId := idx.byId[t.id.value := t]);
      }
      if ClaimsKind(t, EXPOSURE) {
        AddExposure(t);
      } else if ClaimsKind(t, OPEN) {
        AddOpen(t);
      } else if ClaimsKind(t, AGENT_EXIT) {
        AddExit(t);
      } else if ClaimsKind(t, AGENT_FINAL_USAGE) {
        AddUsage(position, t);
      } else if IsPlainEvent(t) {
        AddEvent(t);
      } else {
        AddArtifact(position, t);
      }
    }
  }

  method BuildIndex(scope: Scope, records: seq<Record>) returns (idx: Index)
    ensures idx == IndexOf(scope, records)
  {
    var builder := new Builder(scope);
    for i := 0 to |records|
      invariant builder.scope == scope && builder.idx == IndexOf(scope, records[..i])
    {
      assert records[..i + 1][..i] == records[..i];
      builder.Add(i, records[i]);
    }
    assert records[..|records|] == records;
    idx := builder.idx;
  }

  // ----- what the tables hold ------------------------------------------------------------------

  lemma {:induction false} ReceiptMembers(scope: Scope, records: seq<Record>)
    ensures forall t :: t in IndexOf(scope, records).receipts <==> t in records && IsReceipt(scope, t)
  {
    hide IsReceipt, LaunchRows, IsRejected, Prepare;
    if records != [] {
      var n := |records| - 1;
      ReceiptMembers(scope, records[..n]);
      assert records == records[..n] + [records[n]];
    }
  }

  lemma {:induction false} VerdictMembers(scope: Scope, records: seq<Record>)
    ensures forall v :: v in IndexOf(scope, records).verdicts <==>
              v.position < |records| && records[v.position] == v.record && IsVerdict(scope, v.record)
  {
    hide IsVerdict, LaunchRows, IsRejected, Prepare;
    if records != [] {
      var n := |records| - 1;
      VerdictMembers(scope, records[..n]);
    }
  }

  lemma {:induction false} LaunchMembers(scope: Scope, records: seq<Record>)
    ensures forall l :: l in IndexOf(scope, records).launches <==> exists t :: t in records && l in LaunchRows(scope, t)
  {
    hide LaunchRows, IsRejected, Prepare, IsExit, IsUsage;
    if records != [] {
      var n := |records| - 1;
      LaunchMembers(scope, records[..n]);
      assert records == records[..n] + [records[n]];
    }
  }

  lemma {:induction false} ExitMembers(scope: Scope, records: seq<Record>)
    ensures forall e :: e in IndexOf(scope, records).exits <==>
            exists t :: t in records && IsExit(scope, t) && e == ExitOf(t)
  {
    hide LaunchRows, IsRejected, Prepare, IsExit, IsUsage, ExitOf;
    if records != [] {
      var n := |records| - 1;
      ExitMembers(scope, records[..n]);
      assert records == records[..n] + [records[n]];
    }
  }

  lemma {:induction false} RejectedMembers(scope: Scope, records: seq<Record>)
    ensures forall id :: id in IndexOf(scope, records).rejected <==>
              exists t :: t in records && IsRejected(scope, t) && RecordId(t) == id
  {
    hide LaunchRows, IsRejected, Prepare, IsExit, IsUsage, RecordId;
    if records != [] {
      var n := |records| - 1;
      RejectedMembers(scope, records[..n]);
      assert records == records[..n] + [records[n]];
    }
  }

  lemma {:induction false} ByIdMembers(scope: Scope, records: seq<Record>)
    ensures forall id :: id in IndexOf(scope, records).byId ==>
              IndexOf(scope, records).byId[id] in records && IndexOf(scope, records).byId[id].id == Some(id)
    ensures forall t :: t in records && t.id.Some? ==> t.id.value in IndexOf(scope, records).byId
  {
    hide LaunchRows, IsRejected, Prepare, IsExit, IsUsage;
    if records != [] {
      var n := |records| - 1;
      ByIdMembers(scope, records[..n]);
      assert records == records[..n] + [records[n]];
    }
  }

  /** A native exposure of `e` is a captured exposure record that lists it. */
  ghost predicate ShownBy(scope: Scope, t: Record, e: Exposure) {
    && IsExposure(scope, t) && t.scope == e.repo && t.payload.spawn == e.spawn
    && Some(e.source) in t.payload.entries.value && !IsBlank(e.source)
  }

  lemma {:induction false} PrepareMembers(prepared: map<Exposure, string>, t: Record, entries: seq<Option<string>>)
    ensures forall e :: e in Prepare(prepared, t, entries) <==>
              e in prepared || (t.scope == e.repo && t.payload.spawn == e.spawn && Some(e.source) in entries
                  && !IsBlank(e.source))
  {
    if entries != [] {
      var n := |entries| - 1;
      PrepareMembers(prepared, t, entries[..n]);
      assert entries == entries[..n] + [entries[n]];
    }
  }

  lemma {:induction false} PreparedMembers(scope: Scope, records: seq<Record>)
    ensures forall e :: e in IndexOf(scope, records).prepared <==> exists t :: t in records && ShownBy(scope, t, e)
  {
    hide LaunchRows, IsRejected, IsExit, IsUsage, Prepare, BoundToAgent, IsBlank;
    if records != [] {
      var n := |records| - 1;
      PreparedMembers(scope, records[..n]);
      assert records == records[..n] + [records[n]];
      if IsExposure(scope, records[n]) {
        PrepareMembers(IndexOf(scope, records[..n]).prepared, records[n], records[n].payload.entries.value);
      }
      var before, after := IndexOf(scope, records[..n]).prepared, IndexOf(scope, records).prepared;
      assert forall e :: e in after <==> e in before || ShownBy(scope, records[n], e);
      hide IndexOf, ShownBy;
      assert forall e :: e in before <==> exists t :: t in records[..n] && ShownBy(scope, t, e);
    }
  }
}
