/** What the tables and decisions of the evidence report mean, in the fields of the
    records: an independent reading of every contract, window and table, proved
    equivalent to what the report computes. */
module EvidenceMeaning {
  import opened Basics
  import opened EvidenceRecords
  import opened TupleCapture
  import opened EvidenceIndex
  import opened EvidenceReport

  // ----- single records -------------------------------------------------------------

  predicate NotBlank(s: string) {
    exists i :: 0 <= i < |s| && s[i] != ' ' && s[i] != '\t' && s[i] != '\n' && s[i] != '\r'
  }

  function IdOf(t: Record): string {
    if t.id.Some? then t.id.value else "<no id>"
  }

  /** An agent's own artifact of a BBS kind, under its minted identity. */
  predicate GenuineArtifact(t: Record, kind: string) {
    && t.category == "artifact" && t.lifecycle == "furniture" && t.kind == Kind(kind)
    && (kind == "answer" || t.schemaOne) && t.mintedIdentity
    && t.payload.agent != "" && t.instance == t.payload.agent
  }

  /** The daemon's own event of a BBS kind, about the repository it is scoped to. */
  predicate FromDaemon(t: Record, kind: string) {
    && t.category == "event" && t.lifecycle == "furniture" && t.kind == Kind(kind)
    && t.schemaOne && t.mintedIdentity && t.castleAuthor
    && t.payload.repo != "" && t.scope == t.payload.repo
  }

  predicate InFrame(scope: Scope, repo: string, at: Option<Time>) {
    && (scope.repos == [] || repo in scope.repos)
    && (at.None? ==> scope.window.since.None? && scope.window.until.None?)
    && (at.Some? && scope.window.since.Some? ==> scope.window.since.value <= at.value)
    && (at.Some? && scope.window.until.Some? ==> at.value <= scope.window.until.value)
  }

  predicate EventNamed(t: Record, identity: string) {
    t.category == "event" && t.identity == identity
  }

  predicate Telemetry(t: Record) {
    t.kind == Kind("exposure") || t.kind == Kind("open") || t.kind == Kind("agent_exit")
        || t.kind == Kind("agent_final_usage")
  }

  predicate DirectEvent(t: Record) {
    || EventNamed(t, "harness_result") || EventNamed(t, "agent_spawned") || EventNamed(t, "agent_respawned")
    || EventNamed(t, "task_span")
  }

  predicate ReceiptRecord(scope: Scope, t: Record) {
    GenuineArtifact(t, "reuse") && InFrame(scope, t.scope, t.createdAt)
  }

  /** Only the operator assesses. */
  predicate VerdictRecord(scope: Scope, t: Record) {
    && GenuineArtifact(t, "assessment") && t.instance == "operator" && t.payload.agent == "operator"
    && InFrame(scope, t.scope, t.createdAt) && t.payload.receipt != ""
  }

  /** An attributable exit or usage event at `at`. */
  predicate LaunchTelemetry(scope: Scope, t: Record, kind: string, at: Moment) {
    && FromDaemon(t, kind) && NotBlank(t.payload.agent) && t.payload.taskReadable && NotBlank(t.payload.task)
    && at.At? && InFrame(scope, t.scope, Some(at.time)) && t.payload.spawn != "" && t.payload.session != ""
  }

  predicate ExitOfLaunch(scope: Scope, t: Record) {
    LaunchTelemetry(scope, t, "agent_exit", t.payload.exitedAt) && !t.payload.launchedAt.BadTime?
  }

  predicate UsageOfLaunch(scope: Scope, t: Record) {
    LaunchTelemetry(scope, t, "agent_final_usage", t.payload.observedAt) && t.payload.costBasis != ""
  }

  predicate ExposureRecord(scope: Scope, t: Record) {
    && FromDaemon(t, "exposure") && InFrame(scope, t.scope, t.createdAt) && t.payload.bound == "agent"
    && t.payload.spawn != "" && t.payload.entries.Some?
  }

  predicate OpenRecord(scope: Scope, t: Record) {
    && FromDaemon(t, "open") && InFrame(scope, t.scope, t.createdAt) && t.payload.bound == "agent"
    && t.payload.spawn != "" && t.payload.source != ""
  }

  /** What of the launch a record shows besides its repository, task and
      generation: the session it names, the time, and in which way. */
  predicate ShowsLaunch(scope: Scope, t: Record, session: Option<string>, at: Option<Time>, kind: LaunchKind) {
    match kind
    case ExitRecord =>
      && ExitOfLaunch(scope, t) && session == Some(t.payload.session)
      && at == (if t.payload.launchedAt.At? then Some(t.payload.launchedAt.time) else None)
    case UsageRecord =>
      UsageOfLaunch(scope, t) && session == Some(t.payload.session) && at == Some(t.payload.observedAt.time)
    case HarnessResult =>
      && EventNamed(t, "harness_result") && !Telemetry(t) && InFrame(scope, t.scope, t.createdAt)
      && session == None && at == t.createdAt
    case LaunchEvent =>
      && (EventNamed(t, "agent_spawned") || EventNamed(t, "agent_respawned")) && !Telemetry(t)
      && InFrame(scope, t.scope, t.createdAt) && session == None && at == t.createdAt
    case AuthoredRecord =>
      (ReceiptRecord(scope, t) || GenuineArtifact(t, "finding")) && session == None && at == t.createdAt
  }

  /** The launch row `l` is what the record shows. */
  predicate ProvesLaunch(scope: Scope, t: Record, l: LaunchRow) {
    && l.repo == t.scope && l.task == t.payload.task && l.spawn == t.payload.spawn && l.spawn != ""
       && l.record == IdOf(t)
    && ShowsLaunch(scope, t, l.session, l.at, l.kind)
  }

  /** A record that claims to be what it is not. */
  predicate BreaksContract(scope: Scope, t: Record) {
    if t.kind == Kind("exposure") then
      || !FromDaemon(t, "exposure")
      || (&& InFrame(scope, t.scope, t.createdAt) && t.payload.bound == "agent"
          && (t.payload.spawn == "" || t.payload.entries.None?
              || exists e :: e in t.payload.entries.value && (e.None? || !NotBlank(e.value))))
    else if t.kind == Kind("open") then
      || !FromDaemon(t, "open")
      || (&& InFrame(scope, t.scope, t.createdAt) && t.payload.bound == "agent"
          && (t.payload.spawn == "" || t.payload.source == ""))
    else if t.kind == Kind("agent_exit") then
      || !(FromDaemon(t, "agent_exit") && NotBlank(t.payload.agent) && t.payload.taskReadable
           && t.payload.exitedAt.At? && !t.payload.launchedAt.BadTime?)
      || (NotBlank(t.payload.task) && InFrame(scope, t.scope, Some(t.payload.exitedAt.time))
          && (t.payload.spawn == "" || t.payload.session == ""))
    else if t.kind == Kind("agent_final_usage") then
      || !(FromDaemon(t, "agent_final_usage") && NotBlank(t.payload.agent) && t.payload.taskReadable
           && t.payload.observedAt.At?)
      || (NotBlank(t.payload.task) && InFrame(scope, t.scope, Some(t.payload.observedAt.time))
          && (t.payload.spawn == "" || t.payload.session == "" || t.payload.costBasis == ""))
    else if EventNamed(t, "task_span") then !t.spanOk
    else if DirectEvent(t) then false
    else if t.kind == Kind("reuse") then !GenuineArtifact(t, "reuse")
    else if t.kind == Kind("assessment") then
      || !(GenuineArtifact(t, "assessment") && t.payload.agent == "operator")
      || (InFrame(scope, t.scope, t.createdAt) && t.payload.receipt == "")
    else t.kind == Kind("finding") && !GenuineArtifact(t, "finding")
  }

  lemma BlankMeans(s: string)
    ensures IsBlank(s) <==> !NotBlank(s)
  {
  }

  lemma ContractsMean(t: Record)
    ensures forall kind :: ArtifactOk(t, kind) <==> GenuineArtifact(t, kind)
    ensures AssessmentOk(t) <==> GenuineArtifact(t, "assessment") && t.payload.agent == "operator"
    ensures TelemetryOk(t, "exposure") <==> FromDaemon(t, "exposure")
    ensures TelemetryOk(t, "open") <==> FromDaemon(t, "open")
    ensures TelemetryOk(t, "agent_exit") <==>
              && FromDaemon(t, "agent_exit") && NotBlank(t.payload.agent) && t.payload.taskReadable
              && t.payload.exitedAt.At? && !t.payload.launchedAt.BadTime?
    ensures TelemetryOk(t, "agent_final_usage") <==>
              && FromDaemon(t, "agent_final_usage") && NotBlank(t.payload.agent) && t.payload.taskReadable
              && t.payload.observedAt.At?
  {
    hide IsBlank, NotBlank;
    BlankMeans(t.payload.agent);
  }

  lemma FrameMeans(scope: Scope, t: Record, at: Option<Time>)
    ensures Admits(scope, t, at) <==> InFrame(scope, t.scope, at)
  {
  }

  lemma EventsMean(t: Record)
    ensures IsPlainEvent(t) <==> DirectEvent(t)
    ensures IsHarnessResult(t) <==> EventNamed(t, "harness_result")
    ensures IsLaunchEvent(t) <==> EventNamed(t, "agent_spawned") || EventNamed(t, "agent_respawned")
    ensures IsTaskSpan(t) <==> EventNamed(t, "task_span")
    ensures IsTelemetry(t) <==> Telemetry(t)
    ensures t.category == "artifact" ==> !DirectEvent(t)
  {
    assert "artifact"[0] != "event"[0];
  }

  lemma ReceiptsMean(scope: Scope, t: Record)
    ensures IsReceipt(scope, t) <==> ReceiptRecord(scope, t)
    ensures IsVerdict(scope, t) <==> VerdictRecord(scope, t)
    ensures IsFinding(t) <==> GenuineArtifact(t, "finding")
  {
    hide ArtifactOk, AssessmentOk, Admits, InFrame, IsPlainEvent, DirectEvent;
    ContractsMean(t);
    FrameMeans(scope, t, t.createdAt);
    EventsMean(t);
  }

  lemma ExitsMean(scope: Scope, t: Record)
    ensures IsExit(scope, t) <==> ExitOfLaunch(scope, t)
    ensures IsUsage(scope, t) <==> UsageOfLaunch(scope, t)
  {
    hide TelemetryOk, FromDaemon, Admits, InFrame, IsBlank, NotBlank;
    ContractsMean(t);
    BlankMeans(t.payload.task);
    FrameMeans(scope, t, TimeAt(t.payload.exitedAt));
    FrameMeans(scope, t, TimeAt(t.payload.observedAt));
    if FromDaemon(t, "agent_exit") || FromDaemon(t, "agent_final_usage") {
      DaemonClaims(t);
    }
  }

  lemma DaemonClaims(t: Record)
    ensures forall kind :: FromDaemon(t, kind) ==> ClaimsKind(t, kind)
  {
  }

  lemma ExposuresMean(scope: Scope, t: Record)
    ensures IsExposure(scope, t) <==> ExposureRecord(scope, t)
    ensures IsOpen(scope, t) <==> OpenRecord(scope, t)
  {
    hide TelemetryOk, FromDaemon, Admits, InFrame;
    ContractsMean(t);
    FrameMeans(scope, t, t.createdAt);
    DaemonClaims(t);
  }

  lemma LaunchesMean(scope: Scope, t: Record, l: LaunchRow)
    ensures l in LaunchRows(scope, t) <==> ProvesLaunch(scope, t, l)
  {
    hide IsExit, IsUsage, IsReceipt, IsFinding, ExitOfLaunch, UsageOfLaunch, ReceiptRecord, GenuineArtifact, Admits,
         InFrame,
         IsHarnessResult, IsLaunchEvent, IsTelemetry, Telemetry, EventNamed;
    ReceiptsMean(scope, t);
    ExitsMean(scope, t);
    FrameMeans(scope, t, t.createdAt);
    EventsMean(t);
    KindsApart(scope, t);
  }

  /** No record proves a launch in two ways. */
  lemma KindsApart(scope: Scope, t: Record)
    ensures ExitOfLaunch(scope, t) ==> t.kind == Kind("agent_exit") && Telemetry(t) && t.payload.spawn != ""
    ensures ExitOfLaunch(scope, t) ==> t.payload.exitedAt.At? && !t.payload.launchedAt.BadTime?
    ensures UsageOfLaunch(scope, t) ==> t.kind == Kind("agent_final_usage") && Telemetry(t) && t.payload.spawn != ""
    ensures UsageOfLaunch(scope, t) ==> t.payload.observedAt.At?
    ensures Kind("agent_exit") != Kind("agent_final_usage")
    ensures ReceiptRecord(scope, t) || GenuineArtifact(t, "finding") ==>
              !Telemetry(t) && !EventNamed(t, "harness_result") && !EventNamed(t, "agent_spawned")
              && !EventNamed(t, "agent_respawned")
    ensures EventNamed(t, "harness_result") ==> !EventNamed(t, "agent_spawned") && !EventNamed(t, "agent_respawned")
  {
    assert "artifact"[0] != "event"[0] && |"agent_exit"| != |"agent_final_usage"|;
    assert "harness_result"[0] == 'h' && "agent_spawned"[0] == "agent_respawned"[0] == 'a';
    assert "reuse"[0] == 'r' && "finding"[0] == 'f' && "exposure"[0] == 'e' && "open"[0] == 'o';
    assert "agent_exit"[0] == "agent_final_usage"[0] == 'a';
  }

  lemma RejectedMean(scope: Scope, t: Record)
    ensures IsRejected(scope, t) <==> BreaksContract(scope, t)
  {
    hide TelemetryOk, ArtifactOk, AssessmentOk, FromDaemon, GenuineArtifact, Admits, InFrame, IsBlank, NotBlank,
         IsPlainEvent,
         DirectEvent, IsHarnessResult, IsLaunchEvent, IsTaskSpan, EventNamed;
    ContractsMean(t);
    EventsMean(t);
    BlankMeans(t.payload.task);
    FrameMeans(scope, t, t.createdAt);
    FrameMeans(scope, t, TimeAt(t.payload.exitedAt));
    FrameMeans(scope, t, TimeAt(t.payload.observedAt));
    EventsAre(t);
    BadEntries(t.payload.entries);
  }

  lemma EventsAre(t: Record)
    ensures DirectEvent(t) <==>
              || EventNamed(t, "harness_result") || EventNamed(t, "agent_spawned") || EventNamed(t, "agent_respawned")
              || EventNamed(t, "task_span")
    ensures EventNamed(t, "task_span") ==>
              !EventNamed(t, "harness_result") && !EventNamed(t, "agent_spawned") && !EventNamed(t, "agent_respawned")
  {
    assert "task_span"[0] == 't' && "harness_result"[0] == 'h' && "agent_spawned"[0] == "agent_respawned"[0] == 'a';
  }

  lemma BadEntries(entries: Option<seq<Option<string>>>)
    ensures entries.Some? ==>
              ((exists e :: e in entries.value && !NamesSource(e)) <==>
               exists e :: e in entries.value && (e.None? || !NotBlank(e.value)))
  {
    forall e: Option<string>
      ensures !NamesSource(e) <==> e.None? || !NotBlank(e.value)
    {
      if e.Some? {
        BlankMeans(e.value);
      }
    }
  }

  /** A record that claims to be an assessment by anyone but the operator is
      rejected, and is no verdict in any index. */
  lemma OnlyTheOperatorAssesses(scope: Scope, records: seq<Record>, t: Record)
    requires t in records && t.kind == Kind("assessment") && !DirectEvent(t)
    requires t.instance != "operator" || t.payload.agent != "operator"
    ensures IdOf(t) in IndexOf(scope, records).rejected
    ensures forall v :: v in IndexOf(scope, records).verdicts ==> v.record != t
  {
    hide IndexOf, IsRejected, IsVerdict;
    RejectedMembers(scope, records);
    VerdictMembers(scope, records);
    RejectedMean(scope, t);
    ReceiptsMean(scope, t);
    assert IsRejected(scope, t) by {
      assert "assessment"[0] == 'a' && |"assessment"| == 10;
      AssessmentClaim(scope, t);
    }
  }

  lemma AssessmentClaim(scope: Scope, t: Record)
    requires t.kind == Kind("assessment") && !DirectEvent(t)
    requires t.instance != "operator" || t.payload.agent != "operator"
    ensures BreaksContract(scope, t)
  {
    assert "assessment"[1] == 's' && "agent_exit"[1] == "agent_final_usage"[1] == 'g';
    assert "exposure"[0] == 'e' && "open"[0] == 'o' && "reuse"[0] == 'r' && "assessment"[0] == 'a';
  }

  // ----- the tables -------------------------------------------------------------------------

  /** What every table of the index holds, record by record. */
  lemma TablesMean(scope: Scope, records: seq<Record>)
    ensures var idx := IndexOf(scope, records);
            && (forall t :: t in idx.receipts <==> t in records && ReceiptRecord(scope, t))
            && (forall v :: v in idx.verdicts <==>
                  v.position < |records| && records[v.position] == v.record && VerdictRecord(scope, v.record))
            && (forall l :: l in idx.launches <==> exists t :: t in records && ProvesLaunch(scope, t, l))
            && (forall id :: id in idx.rejected <==>
               exists t :: t in records && BreaksContract(scope, t) && IdOf(t) == id)
  {
    hide IndexOf, IsReceipt, IsVerdict, LaunchRows, IsRejected, ReceiptRecord, VerdictRecord, ProvesLaunch,
         BreaksContract;
    ReceiptMembers(scope, records);
    VerdictMembers(scope, records);
    LaunchMembers(scope, records);
    RejectedMembers(scope, records);
    forall t
      ensures IsReceipt(scope, t) <==> ReceiptRecord(scope, t)
      ensures IsVerdict(scope, t) <==> VerdictRecord(scope, t)
      ensures IsRejected(scope, t) <==> BreaksContract(scope, t)
    {
      ReceiptsMean(scope, t);
      RejectedMean(scope, t);
    }
    forall t, l
      ensures l in LaunchRows(scope, t) <==> ProvesLaunch(scope, t, l)
    {
      LaunchesMean(scope, t, l);
    }
  }

  /** The row of an exit record. */
  predicate IsRowOf(e: ExitRow, t: Record) {
    && e.repo == t.scope && e.task == t.payload.task && e.agent == t.payload.agent && e.spawn == t.payload.spawn
    && e.session == t.payload.session && e.record == IdOf(t) && e.staleSession == t.payload.staleSession
    && e.priorState == t.payload.priorState && e.costCoverage == t.payload.costCoverage
    && e.exitedAt == if t.payload.exitedAt.At? then Some(t.payload.exitedAt.time) else None
  }

  predicate IsUsageRowOf(u: UsageRow, position: nat, t: Record) {
    && u.position == position
    && u.repo == t.scope && u.task == t.payload.task && u.agent == t.payload.agent && u.spawn == t.payload.spawn
    && u.session == t.payload.session && u.providerSession == t.payload.providerSession && u.record == IdOf(t)
    && u.state == t.payload.state && u.costUsd == t.payload.costUsd && u.costBasis == t.payload.costBasis
    && u.observedAt == if t.payload.observedAt.At? then Some(t.payload.observedAt.time) else None
  }

  lemma RowsMean(t: Record)
    ensures forall e :: e == ExitOf(t) <==> IsRowOf(e, t)
    ensures forall u, position :: u == UsageOf(position, t) <==> IsUsageRowOf(u, position, t)
  {
  }

  lemma ExitTableMeans(scope: Scope, records: seq<Record>)
    ensures forall e :: e in IndexOf(scope, records).exits <==>
              exists t :: t in records && ExitOfLaunch(scope, t) && IsRowOf(e, t)
  {
    hide IndexOf, IsExit, ExitOfLaunch, ExitOf, IsRowOf;
    ExitMembers(scope, records);
    forall t
      ensures IsExit(scope, t) <==> ExitOfLaunch(scope, t)
      ensures forall e :: e == ExitOf(t) <==> IsRowOf(e, t)
    {
      ExitsMean(scope, t);
      RowsMean(t);
    }
  }

  /** A record that shows a source to a generation. */
  predicate Shows(scope: Scope, t: Record, repo: string, source: string, spawn: string) {
    && ExposureRecord(scope, t) && t.scope == repo && t.payload.spawn == spawn
    && Some(source) in t.payload.entries.value && NotBlank(source)
  }

  predicate Opens(scope: Scope, t: Record, repo: string, source: string, spawn: string) {
    OpenRecord(scope, t) && t.scope == repo && t.payload.source == source && t.payload.spawn == spawn
  }

  lemma {:induction false} OpensMembers(scope: Scope, records: seq<Record>)
    ensures forall e :: e in IndexOf(scope, records).opens <==>
              exists t :: t in records && IsOpen(scope, t) && e == Exposure(t.scope, t.payload.source, t.payload.spawn)
  {
    hide LaunchRows, IsRejected, Prepare, IsExit, IsUsage, IsOpen;
    if records != [] {
      var n := |records| - 1;
      OpensMembers(scope, records[..n]);
      assert records == records[..n] + [records[n]];
    }
  }

  lemma ExposureTablesMean(scope: Scope, records: seq<Record>, repo: string, source: string, spawn: string)
    ensures Exposure(repo, source, spawn) in IndexOf(scope, records).prepared <==>
              exists t :: t in records && Shows(scope, t, repo, source, spawn)
    ensures Exposure(repo, source, spawn) in IndexOf(scope, records).opens <==>
              exists t :: t in records && Opens(scope, t, repo, source, spawn)
  {
    hide IndexOf, IsOpen, OpenRecord;
    PreparedMembers(scope, records);
    OpensMembers(scope, records);
    var e := Exposure(repo, source, spawn);
    forall t
      ensures ShownBy(scope, t, e) <==> Shows(scope, t, repo, source, spawn)
      ensures IsOpen(scope, t) <==> OpenRecord(scope, t)
    {
      ExposuresMean(scope, t);
      BlankMeans(source);
    }
  }

  ghost predicate IsLastNamed(records: seq<Record>, id: string, i: nat) {
    && i < |records| && records[i].id == Some(id)
    && forall j :: i < j < |records| ==> records[j].id != Some(id)
  }

  lemma ByIdGrows(scope: Scope, records: seq<Record>)
    requires records != []
    ensures var last, before := records[|records| - 1], IndexOf(scope, records[..|records| - 1]).byId;
            IndexOf(scope, records).byId == if last.id.Some? then before[last.id.value := last] else before
  {
    hide LaunchRows, IsRejected, Prepare, IsExit, IsUsage, IsExposure, IsOpen, IsReceipt, IsVerdict;
  }

  lemma NothingNamed(scope: Scope, records: seq<Record>, id: string)
    requires records == []
    ensures id !in IndexOf(scope, records).byId
  {
  }

  /** An id stands for the last record that has it. */
  lemma {:induction false} ByIdIsLast(scope: Scope, records: seq<Record>, id: string)
    ensures id in IndexOf(scope, records).byId ==>
              exists i: nat :: IsLastNamed(records, id, i) && IndexOf(scope, records).byId[id] == records[i]
    ensures id !in IndexOf(scope, records).byId ==> forall i :: 0 <= i < |records| ==> records[i].id != Some(id)
  {
    hide IndexOf;
    if records == [] {
      NothingNamed(scope, records, id);
    } else {
      var n := |records| - 1;
      ByIdGrows(scope, records);
      if records[n].id == Some(id) {
        assert IsLastNamed(records, id, n);
      } else {
        ByIdIsLast(scope, records[..n], id);
        if id in IndexOf(scope, records[..n]).byId {
          var i: nat :| IsLastNamed(records[..n], id, i) && IndexOf(scope, records[..n]).byId[id] == records[..n][i];
          assert IsLastNamed(records, id, i);
        }
      }
    }
  }

  // ----- evidence and sources --------------------------------------------------------------

  /** An artifact keeps the contract of the kind it claims; telemetry kinds are no
      artifact's. */
  predicate KeepsContract(t: Record) {
    && t.category == "artifact"
    && (t.kind == Kind("assessment") ==> GenuineArtifact(t, "assessment") && t.payload.agent == "operator")
    && (t.kind == Kind("finding") ==> GenuineArtifact(t, "finding"))
    && (t.kind == Kind("answer") ==> GenuineArtifact(t, "answer"))
    && (t.kind == Kind("reuse") ==> GenuineArtifact(t, "reuse"))
    && !Telemetry(t)
  }

  lemma ContractMeans(t: Record)
    requires t.category == "artifact"
    ensures ContractOk(t) <==> KeepsContract(t)
  {
    hide ArtifactOk, AssessmentOk, GenuineArtifact;
    ContractsMean(t);
    assert "artifact"[0] != "event"[0];
    assert "assessment"[1] == 's' && "agent_exit"[1] == "agent_final_usage"[1] == 'g' && "answer"[1] == 'n';
    assert "assessment"[0] == 'a' && "finding"[0] == 'f' && "reuse"[0] == 'r' && "exposure"[0] == 'e'
        && "open"[0] == 'o';
  }

  predicate SupportedBy(id: string, byId: ById, rejected: set<string>, repo: string) {
    NotBlank(id) && id !in rejected && id in byId && byId[id].scope == repo && KeepsContract(byId[id])
  }

  predicate Absent(id: string, byId: ById, rejected: set<string>) {
    NotBlank(id) && id !in rejected && id !in byId
  }

  /** Evidence is resolved when it is a non-empty list of ids that all name sound
      artifacts of the repository; unknown when some of them are only not
      captured; invalid otherwise. */
  lemma EvidenceMeans(evidence: EvidenceList, byId: ById, rejected: set<string>, repo: string)
    ensures var listed := evidence.Items? && evidence.items != [];
            var check := Check(evidence, byId, rejected, repo);
            && (check == Resolved <==>
                  listed && forall e :: e in evidence.items ==> e.Some? && SupportedBy(e.value, byId, rejected, repo))
            && (check != Invalid <==>
                  listed && forall e :: e in evidence.items ==>
                    e.Some? && (SupportedBy(e.value, byId, rejected, repo) || Absent(e.value, byId, rejected)))
  {
    hide IsBlank, NotBlank, ContractOk, KeepsContract;
    if evidence.Items? {
      forall id
        ensures Resolves(id, byId, rejected, repo) <==> SupportedBy(id, byId, rejected, repo)
        ensures Missing(id, byId, rejected) <==> Absent(id, byId, rejected)
      {
        BlankMeans(id);
        if id in byId && byId[id].category == "artifact" {
          ContractMeans(byId[id]);
        } else if id in byId {
          NoArtifact(byId[id]);
        }
      }
      var items := evidence.items;
      assert forall e :: e in items <==> exists i :: 0 <= i < |items| && items[i] == e;
    }
  }

  lemma NoArtifact(t: Record)
    requires t.category != "artifact"
    ensures !KeepsContract(t)
  {
  }

  /** A source: an ordinary artifact, or a genuine finding or answer, of the
      repository. */
  predicate GenuineSource(t: Record, repo: string) {
    && t.category == "artifact" && t.scope == repo
    && (t.kind == NoKind || GenuineArtifact(t, "finding") || GenuineArtifact(t, "answer"))
  }

  /** The reason a pair is no opportunity, the first one in this order. */
  lemma ExclusionMeans(idx: Index, p: Pair)
    ensures var reason, captured := Exclusion(idx, p), p.source in idx.byId;
            && (reason == Some(SourceNotCaptured) <==> !captured)
            && (reason == Some(InvalidSource) <==> captured && !GenuineSource(idx.byId[p.source], p.repo))
            && (reason == Some(SelfUse) <==>
                  && captured && GenuineSource(idx.byId[p.source], p.repo)
                  && idx.byId[p.source].payload.spawn != ""
                  && idx.byId[p.source].payload.spawn == p.consumerGeneration)
            && reason != Some(Duplicate)
            && (reason.None? <==>
                  && captured && GenuineSource(idx.byId[p.source], p.repo)
                  && !(idx.byId[p.source].payload.spawn != ""
                     && idx.byId[p.source].payload.spawn == p.consumerGeneration)
                  && (idx.byId[p.source].kind != NoKind ==>
                        Check(idx.byId[p.source].payload.evidence, idx.byId, idx.rejected, p.repo) != Invalid))
  {
    hide Check, ArtifactOk;
    if p.source in idx.byId {
      ContractsMean(idx.byId[p.source]);
      SourceKinds(idx.byId[p.source], p.repo);
    }
  }

  lemma SourceKinds(t: Record, repo: string)
    ensures SourceOk(t, repo) <==> GenuineSource(t, repo)
    ensures SourceOk(t, repo) ==> (DeclaresEvidence(t) <==> t.kind != NoKind)
  {
    ContractsMean(t);
  }

  // ----- one pair ----------------------------------------------------------------------------

  /** A receipt that supports the pair's claim. */
  predicate Supports(idx: Index, p: Pair, source: Record, c: Record) {
    && c.payload.source == p.source && c.payload.task == p.consumerTask
    && c.scope == p.repo && c.payload.spawn == p.consumerGeneration
    && Check(c.payload.evidence, idx.byId, idx.rejected, p.repo) == Resolved
    && c.createdAt.Some? && (source.createdAt.Some? ==> source.createdAt.value <= c.createdAt.value)
  }

  /** The claim is the first supporting receipt in capture order. */
  lemma {:induction false} ClaimIsFirst(idx: Index, p: Pair, source: Record, receipts: seq<Record>)
    ensures var claim := FirstClaim(idx, p, source, receipts);
            && (claim.None? ==> forall c :: c in receipts ==> !Supports(idx, p, source, c))
            && (claim.Some? ==>
                  exists k :: && 0 <= k < |receipts| && receipts[k] == claim.value
                      && Supports(idx, p, source, receipts[k])
                              && forall j :: 0 <= j < k ==> !Supports(idx, p, source, receipts[j]))
  {
    hide Check;
    if receipts != [] {
      assert SupportsClaim(idx, p, source, receipts[0]) <==> Supports(idx, p, source, receipts[0]);
      if SupportsClaim(idx, p, source, receipts[0]) {
        assert receipts[0] == FirstClaim(idx, p, source, receipts).value;
      } else {
        ClaimIsFirst(idx, p, source, receipts[1..]);
        assert receipts == [receipts[0]] + receipts[1..];
        var claim := FirstClaim(idx, p, source, receipts[1..]);
        if claim.Some? {
          var k :| && 0 <= k < |receipts[1..]| && receipts[1..][k] == claim.value
                   && Supports(idx, p, source, receipts[1..][k])
                   && forall j :: 0 <= j < k ==> !Supports(idx, p, source, receipts[1..][j]);
          assert receipts[k + 1] == claim.value;
          forall j | 0 <= j < k + 1
            ensures !Supports(idx, p, source, receipts[j])
          {
            assert j > 0 ==> receipts[j] == receipts[1..][j - 1];
          }
        }
      }
    }
  }

  /** Some record was captured of this generation in this repository. */
  predicate SeenRunning(idx: Index, repo: string, spawn: string) {
    exists l :: l in idx.launches && l.repo == repo && l.spawn == spawn
  }

  lemma RunningMeans(idx: Index, repo: string, spawn: string)
    ensures Launched(idx, repo, spawn) <==> SeenRunning(idx, repo, spawn)
  {
  }

  /** Native telemetry decides coverage before any review; a shown source only
      counts as prepared for a generation that ran. */
  lemma CoverageMeans(idx: Index, p: Pair, review: Option<Review>)
    ensures var shown := Exposure(p.repo, p.source, p.consumerGeneration) in idx.prepared;
            var ran := SeenRunning(idx, p.repo, p.consumerGeneration);
            var coverage := CoverageOf(idx, p, review);
            && (coverage == PreparedNative <==> shown && ran)
            && (coverage == PreparedNotLaunched <==> shown && !ran)
            && (coverage == PreparedReviewed <==> !shown && review.Some? && review.value.coverage.PreparedBy?)
            && (coverage == NotPrepared <==> !shown && review.Some? && review.value.coverage.NotPreparedBy?)
            && (coverage == UnknownCoverage <==> !shown && (review.None? || review.value.coverage.NotStated?))
  {
    RunningMeans(idx, p.repo, p.consumerGeneration);
  }

  /** Exactly when a pair is a verified effect, and when it counts. */
  lemma EffectMeans(idx: Index, order: Order, p: Pair, review: Option<Review>)
    requires p.source in idx.byId
    ensures var r, source := Evaluate(idx, order, p, review), idx.byId[p.source];
            var sourceUnknown := && (source.kind == Kind("finding") || source.kind == Kind("answer"))
                                 && Check(source.payload.evidence, idx.byId, idx.rejected, p.repo) == Unknown;
            && r.claim == FirstClaim(idx, p, source, idx.receipts)
            && (r.verdict.Some? ==> r.claim.Some?)
            && (r.verifiedEffect <==>
                  && r.claim.Some?
                  && (r.claim.value.payload.outcome == Some("used") || r.claim.value.payload.outcome == Some("adapted"))
                  && r.verdict.Some? && r.verdict.value.payload.verdict == Some("verified")
                  && source.createdAt.Some? && r.claim.value.createdAt.Some?
                  && (r.coverage == PreparedNative || r.coverage == PreparedReviewed)
                  && SeenRunning(idx, p.repo, p.consumerGeneration)
                  && !sourceUnknown)
            && (r.countsAsEffect <==> r.verifiedEffect && !(review.Some? && review.value.relayedByOperator))
            && (r.relayedByOperator <==> review.Some? && review.value.relayedByOperator)
            && (r.regression <==> review.Some? && review.value.regression)
            && (r.opens <==> Exposure(p.repo, p.source, p.consumerGeneration) in idx.opens)
  {
    hide Check, FirstClaim, CurrentVerdict, TrustedVerdicts, Launched, SeenRunning, AuthorExited, CoverageOf;
    RunningMeans(idx, p.repo, p.consumerGeneration);
  }

  // ----- author exit --------------------------------------------------------------------------

  /** A launch row that takes the credit away: the same generation in the same
      repository, under another session or none, after the exit and not after the
      claim. */
  predicate TakesOver(l: LaunchRow, repo: string, spawn: string, session: string, exitAt: Time, claimAt: Time) {
    && l.repo == repo && l.spawn == spawn && (l.session.None? || l.session.value != session)
    && l.at.Some? && exitAt < l.at.value && l.at.value <= claimAt
  }

  /** An exit of the source's author, before the claim and not taken over. */
  predicate CreditsAuthor(launches: seq<LaunchRow>, e: ExitRow, repo: string, source: Record, claimAt: Time) {
    && e.repo == repo
    && NotBlank(source.payload.task) && e.task == source.payload.task
    && e.spawn == source.payload.spawn
    && (source.payload.agent == "" || e.agent == "" || e.agent == source.payload.agent)
    && (e.staleSession.None? || !e.staleSession.value)
    && e.exitedAt.Some? && e.exitedAt.value <= claimAt
    && forall l :: l in launches ==> !TakesOver(l, repo, source.payload.spawn, e.session, e.exitedAt.value, claimAt)
  }

  lemma {:induction false} FoundIsFirst(exits: seq<ExitRow>, record: string)
    ensures var e := FindExit(exits, record);
            && (e.None? ==> forall x :: x in exits ==> x.record != record)
            && (e.Some? ==>
                  exists k :: && 0 <= k < |exits| && exits[k] == e.value && e.value.record == record
                              && forall j :: 0 <= j < k ==> exits[j].record != record)
  {
    if exits != [] {
      FoundIsFirst(exits[1..], record);
      assert exits == [exits[0]] + exits[1..];
      if exits[0].record != record && FindExit(exits[1..], record).Some? {
        var k :| && 0 <= k < |exits[1..]| && exits[1..][k] == FindExit(exits, record).value
                 && forall j :: 0 <= j < k ==> exits[1..][j].record != record;
        assert exits[k + 1] == FindExit(exits, record).value;
      }
    }
  }

  lemma CreditMeans(launches: seq<LaunchRow>, e: ExitRow, repo: string, source: Record, claimAt: Option<Time>)
    ensures ExitCredits(launches, e, repo, source, claimAt) <==>
              claimAt.Some? && CreditsAuthor(launches, e, repo, source, claimAt.value)
  {
    hide IsBlank, NotBlank;
    BlankMeans(source.payload.task);
    if claimAt.Some? && e.exitedAt.Some? {
      forall l
        ensures IsRelaunch(l, repo, source.payload.spawn, e.session, e.exitedAt.value, claimAt.value) <==>
                TakesOver(l, repo, source.payload.spawn, e.session, e.exitedAt.value, claimAt.value)
      {
      }
      hide IsRelaunch, TakesOver;
      assert forall l :: l in launches <==> exists i :: 0 <= i < |launches| && launches[i] == l;
    }
  }

  /** Author exit is credited exactly when the named record is a genuine exit event,
      not a completion or the daemon's lifecycle note, and the first indexed exit
      of that id is one that credits the author. */
  lemma AuthorExitMeans(idx: Index, evidence: string, p: Pair, source: Record, claimAt: Option<Time>)
    ensures AuthorExited(idx, evidence, p, source, claimAt) <==>
              && evidence in idx.byId
              && !EventNamed(idx.byId[evidence], "harness_result") && idx.byId[evidence].identity != "agent_lifecycle"
              && FromDaemon(idx.byId[evidence], "agent_exit") && NotBlank(idx.byId[evidence].payload.agent)
              && idx.byId[evidence].payload.taskReadable && idx.byId[evidence].payload.exitedAt.At?
              && !idx.byId[evidence].payload.launchedAt.BadTime?
              && source.payload.spawn != "" && claimAt.Some?
              && FindExit(idx.exits, evidence).Some?
              && CreditsAuthor(idx.launches, FindExit(idx.exits, evidence).value, p.repo, source, claimAt.value)
  {
    hide TelemetryOk, FromDaemon, ExitCredits, CreditsAuthor, FindExit, NotBlank, IsBlank;
    if evidence in idx.byId {
      ContractsMean(idx.byId[evidence]);
      EventsMean(idx.byId[evidence]);
      DaemonClaims(idx.byId[evidence]);
      if FindExit(idx.exits, evidence).Some? {
        CreditMeans(idx.launches, FindExit(idx.exits, evidence).value, p.repo, source, claimAt);
      }
    }
  }
}
