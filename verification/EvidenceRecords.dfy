/** The captured tuples of `bbs_report.rs` and the checks every record must pass
    before it can count.  A record is a JSON object read field by field: an
    absent text field reads as the empty string, as `str_field` does. */
module EvidenceRecords {
  import opened Basics

  /** Nanoseconds since the epoch. */
  type Time = int

  /** `payload.bbs_kind`: absent, present but no text, or a name. */
  datatype BbsKind = NoKind | NotText | Kind(name: string)

  /** A time field of the payload. */
  datatype Moment = NoTime | BadTime | At(time: Time)

  /** `payload.evidence`; a list member that is no text is `None`. */
  datatype EvidenceList = NotAList | Items(items: seq<Option<string>>)

  datatype Payload = Payload(
    agent: string,
    repo: string,
    spawn: string,
    session: string,
    source: string,
    task: string,
    taskReadable: bool,
    receipt: string,
    bound: string,
    evidence: EvidenceList,
    entries: Option<seq<Option<string>>>,
    outcome: Option<string>,
    verdict: Option<string>,
    launchedAt: Moment,
    exitedAt: Moment,
    observedAt: Moment,
    staleSession: Option<bool>,
    priorState: Option<string>,
    costCoverage: Option<string>,
    providerSession: Option<string>,
    state: Option<string>,
    costUsd: Option<real>,
    costBasis: string)

  /** `mintedIdentity`, `castleAuthor` and `spanOk` are the verdicts of
      `identity_defect`, `is_castle_author` and `task_span_defect` on it. */
  datatype Record = Record(
    id: Option<string>,
    commitSequence: Option<nat>,
    category: string,
    lifecycle: string,
    identity: string,
    instance: string,
    scope: string,
    createdAt: Option<Time>,
    kind: BbsKind,
    schemaOne: bool,
    mintedIdentity: bool,
    castleAuthor: bool,
    spanOk: bool,
    payload: Payload)

  const FINDING := "finding"
  const ANSWER := "answer"
  const REUSE := "reuse"
  const ASSESSMENT := "assessment"
  const EXPOSURE := "exposure"
  const OPEN := "open"
  const AGENT_EXIT := "agent_exit"
  const AGENT_FINAL_USAGE := "agent_final_usage"

  const NO_ID := "<no id>"

  function RecordId(t: Record): string {
    match t.id case Some(id) => id case None => NO_ID
  }

  predicate ClaimsKind(t: Record, kind: string) {
    t.kind == Kind(kind)
  }

  predicate IsSpace(c: char) {
    c == ' ' || c == '\t' || c == '\n' || c == '\r'
  }

  /** `trim().is_empty()` */
  predicate IsBlank(s: string) {
    forall i :: 0 <= i < |s| ==> IsSpace(s[i])
  }

  // ----- record contracts ----------------------------------------------------------

  /** `artifact_record_defect` finds nothing. */
  predicate ArtifactOk(t: Record, kind: string) {
    && t.category == "artifact" && t.lifecycle == "furniture" && t.kind == Kind(kind)
    && (kind == ANSWER || t.schemaOne) && t.mintedIdentity
    && t.instance != "" && t.payload.agent != "" && t.instance == t.payload.agent
  }

  /** `telemetry_record_defect` finds nothing. */
  predicate TelemetryOk(t: Record, kind: string) {
    && t.category == "event" && t.lifecycle == "furniture" && t.kind == Kind(kind)
    && t.schemaOne && t.mintedIdentity && t.castleAuthor
    && t.payload.repo != "" && t.scope == t.payload.repo
    && (kind == AGENT_EXIT || kind == AGENT_FINAL_USAGE ==>
          && !IsBlank(t.payload.agent) && t.payload.taskReadable
          && (if kind == AGENT_EXIT then t.payload.exitedAt else t.payload.observedAt).At?
          && (kind == AGENT_EXIT ==> !t.payload.launchedAt.BadTime?))
  }

  /** `assessment_defect` finds nothing: the operator alone assesses. */
  predicate AssessmentOk(t: Record) {
    ArtifactOk(t, ASSESSMENT) && t.payload.agent == "operator"
  }

  /** The contract of whatever BBS kind an artifact claims. */
  predicate ContractOk(t: Record) {
    if t.kind == Kind(ASSESSMENT) then AssessmentOk(t)
    else if t.kind.Kind? && t.kind.name in {FINDING, ANSWER, REUSE} then ArtifactOk(t, t.kind.name)
    else if t.kind.Kind? && t.kind.name in {EXPOSURE, OPEN, AGENT_EXIT, AGENT_FINAL_USAGE}
        then TelemetryOk(t, t.kind.name)
    else true
  }

  predicate IsHarnessResult(t: Record) {
    t.category == "event" && t.identity == "harness_result"
  }

  predicate IsLaunchEvent(t: Record) {
    t.category == "event" && (t.identity == "agent_spawned" || t.identity == "agent_respawned")
  }

  predicate IsTaskSpan(t: Record) {
    t.category == "event" && t.identity == "task_span"
  }

  /** `source_defect` finds nothing: an ordinary artifact, or a genuine finding
      or answer, of this repository. */
  predicate SourceOk(t: Record, repo: string) {
    && t.category == "artifact" && t.scope == repo
    && match t.kind
       case NoKind => true
       case NotText => false
       case Kind(name) => (name == FINDING || name == ANSWER) && ArtifactOk(t, name)
  }

  // ----- evidence -------------------------------------------------------------------

  datatype EvidenceCheck = Resolved | Unknown | Invalid

  type ById = map<string, Record>

  /** An id that resolves to an artifact of the repository that keeps the
      contract of its kind and was not rejected. */
  predicate Resolves(id: string, byId: ById, rejected: set<string>, repo: string) {
    && !IsBlank(id) && id !in rejected && id in byId
    && byId[id].category == "artifact" && byId[id].scope == repo && ContractOk(byId[id])
  }

  /** An id that is simply not in the capture. */
  predicate Missing(id: string, byId: ById, rejected: set<string>) {
    !IsBlank(id) && id !in rejected && id !in byId
  }

  predicate AllResolve(items: seq<Option<string>>, byId: ById, rejected: set<string>, repo: string) {
    forall i :: 0 <= i < |items| ==> items[i].Some? && Resolves(items[i].value, byId, rejected, repo)
  }

  predicate NoneMalformed(items: seq<Option<string>>, byId: ById, rejected: set<string>, repo: string) {
    forall i :: 0 <= i < |items| ==>
      items[i].Some? && (Resolves(items[i].value, byId, rejected, repo) || Missing(items[i].value, byId, rejected))
  }

  /** What an evidence list establishes: nothing unless it is a non-empty list of
      ids; resolved when every id resolves, unknown when some are only missing. */
  function Check(evidence: EvidenceList, byId: ById, rejected: set<string>, repo: string): EvidenceCheck {
    if evidence.NotAList? || evidence.items == [] then Invalid
    else if AllResolve(evidence.items, byId, rejected, repo) then Resolved
    else if NoneMalformed(evidence.items, byId, rejected, repo) then Unknown
    else Invalid
  }

  /** `check_evidence`: one pass that stops at the first malformed member and
      remembers the first missing one. */
  method CheckEvidence(evidence: EvidenceList, byId: ById, rejected: set<string>, repo: string)
      returns (r: EvidenceCheck)
    ensures r == Check(evidence, byId, rejected, repo)
  {
    if evidence.NotAList? || evidence.items == [] {
      return Invalid;
    }
    var unknown := false;
    var items := evidence.items;
    for i := 0 to |items|
      invariant NoneMalformed(items[..i], byId, rejected, repo)
      invariant !unknown <==> AllResolve(items[..i], byId, rejected, repo)
    {
      assert items[..i + 1] == items[..i] + [items[i]];
      assert items[..i + 1][i] == items[i];
      if items[i].None? {
        return Invalid;
      }
      var id := items[i].value;
      if IsBlank(id) || id in rejected {
        return Invalid;
      }
      if id !in byId {
        unknown := true;
      } else {
        var t := byId[id];
        if t.category != "artifact" || t.scope != repo || !ContractOk(t) {
          return Invalid;
        }
      }
    }
    assert items[..|items|] == items;
    r := if unknown then Unknown else Resolved;
  }
}
