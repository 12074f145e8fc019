/** The whole report of `compute_full`: enrolled pairs in, opportunities, discovery
    and the mechanism goal out; and what a met goal is worth. */
module MechanismGoal {
  import opened Basics
  import opened EvidenceRecords
  import opened StableSort
  import opened TupleCapture
  import opened EvidenceIndex
  import opened EvidenceReport
  import opened EvidenceMeaning
  import opened EvidenceResults
  import opened Enrollment

  datatype Mechanism = Mechanism(effects: nat, batches: nat, authorExits: nat, goalMet: bool)

  /** Verified reuse counts consumer tasks, not pairs. */
  datatype Reuse = Reuse(eligibleTasks: nat, verifiedTasks: nat)

  datatype Report = Report(
    excluded: seq<Excluded>, evaluated: seq<PairResult>, discovery: Discovery, reuse: Reuse, mechanism: Mechanism)

  datatype ReportError = InvalidManifest | InvalidReviews(refusal: Refusal)

  // ----- the goal ------------------------------------------------------------------------

  /** The capture may lack a receipt or an assessment. */
  predicate HasHole(capture: Capture) {
    capture.truncated || capture.complete == Some(false) || capture.missingReferences != []
  }

  function Effects(evaluated: seq<PairResult>): seq<PairResult> {
    if evaluated == [] then []
    else
      var last := evaluated[|evaluated| - 1];
      Effects(evaluated[..|evaluated| - 1]) + if last.countsAsEffect then [last] else []
  }

  function AuthorExits(evaluated: seq<PairResult>): nat {
    if evaluated == [] then 0
    else
      var last := evaluated[|evaluated| - 1];
      AuthorExits(evaluated[..|evaluated| - 1]) + if last.countsAsEffect && last.authorTerminal.Some? then 1 else 0
  }

  function Batches(effects: seq<PairResult>): set<string> {
    set r | r in effects :: r.pair.batch
  }

  predicate GoalMet(capture: Capture, evaluated: seq<PairResult>) {
    && !HasHole(capture)
    && |Effects(evaluated)| >= MECHANISM_EFFECTS_REQUIRED
    && |Batches(Effects(evaluated))| >= MECHANISM_BATCHES_REQUIRED
    && AuthorExits(evaluated) >= MECHANISM_AUTHOR_EXIT_REQUIRED
  }

  method CertifyGoal(capture: Capture, evaluated: seq<PairResult>) returns (m: Mechanism)
    ensures m == Mechanism(|Effects(evaluated)|, |Batches(Effects(evaluated))|, AuthorExits(evaluated),
                           GoalMet(capture, evaluated))
  {
    var effects, batches, exits := 0, {}, 0;
    for i := 0 to |evaluated|
      invariant effects == |Effects(evaluated[..i])|
      invariant batches == Batches(Effects(evaluated[..i]))
      invariant exits == AuthorExits(evaluated[..i])
    {
      assert evaluated[..i + 1][..i] == evaluated[..i];
      var r := evaluated[i];
      if r.countsAsEffect {
        effects := effects + 1;
        batches := batches + {r.pair.batch};
        if r.authorTerminal.Some? {
          exits := exits + 1;
        }
      }
    }
    assert evaluated[..|evaluated|] == evaluated;
    var met := && !HasHole(capture) && effects >= MECHANISM_EFFECTS_REQUIRED
               && |batches| >= MECHANISM_BATCHES_REQUIRED && exits >= MECHANISM_AUTHOR_EXIT_REQUIRED;
    m := Mechanism(effects, |batches|, exits, met);
  }

  /** The goal in numbers: three effects over two batches, one after its author's
      exit, in a capture that is not truncated, does not call itself incomplete and
      lists no missing reference. */
  lemma GoalMeans(capture: Capture, evaluated: seq<PairResult>)
    ensures GoalMet(capture, evaluated) <==>
              && !capture.truncated && (capture.complete.None? || capture.complete.value)
                 && |capture.missingReferences| == 0
              && |Effects(evaluated)| >= 3 && AuthorExits(evaluated) >= 1
              && |set r | r in Effects(evaluated) :: r.pair.batch| >= 2
  {
  }

  // ----- consumer tasks ---------------------------------------------------------------------

  function TaskOf(r: PairResult): (string, string) {
    (r.pair.repo, r.pair.consumerTask)
  }

  function TasksOf(evaluated: seq<PairResult>): set<(string, string)> {
    set r | r in evaluated :: TaskOf(r)
  }

  function VerifiedTasks(evaluated: seq<PairResult>): set<(string, string)> {
    set r | r in evaluated && r.verifiedEffect :: TaskOf(r)
  }

  /** A task is its repository and its name; it is verified when some pair of it is. */
  lemma TaskSetsMean(evaluated: seq<PairResult>, repo: string, task: string)
    ensures (repo, task) in TasksOf(evaluated) <==>
              exists r :: r in evaluated && r.pair.repo == repo && r.pair.consumerTask == task
    ensures (repo, task) in VerifiedTasks(evaluated) <==>
              exists r :: r in evaluated && r.pair.repo == repo && r.pair.consumerTask == task && r.verifiedEffect
  {
  }

  /** The per-task table, task by task. */
  method CountReuse(evaluated: seq<PairResult>) returns (reuse: Reuse)
    ensures reuse == Reuse(|TasksOf(evaluated)|, |VerifiedTasks(evaluated)|)
  {
    var tasks: map<(string, string), bool> := map[];
    for i := 0 to |evaluated|
      invariant tasks.Keys == TasksOf(evaluated[..i])
      invariant forall t :: t in tasks ==> (tasks[t] <==> t in VerifiedTasks(evaluated[..i]))
    {
      var r := evaluated[i];
      assert evaluated[..i + 1] == evaluated[..i] + [r];
      var verified := r.verifiedEffect || (TaskOf(r) in tasks && tasks[TaskOf(r)]);
      tasks := tasks[TaskOf(r) := verified];
    }
    assert evaluated[..|evaluated|] == evaluated;
    var verifiedTasks := set t | t in tasks && tasks[t];
    assert verifiedTasks == VerifiedTasks(evaluated);
    reuse := Reuse(|tasks.Keys|, |verifiedTasks|);
  }

  // ----- the report ---------------------------------------------------------------------------

  function ReviewTable(entries: seq<Entry>): Reviews {
    if entries == [] then map[]
    else ReviewTable(entries[..|entries| - 1])[entries[|entries| - 1].pair := entries[|entries| - 1].review]
  }

  /** Under reviews in order each review is found under its pair, and nothing else. */
  lemma {:induction false} ReviewTableMeans(m: Manifest, entries: seq<Entry>, n: nat)
    requires EntriesOk(m, entries, n)
    ensures forall k :: 0 <= k < n ==>
              entries[k].pair in ReviewTable(entries[..n])
                  && ReviewTable(entries[..n])[entries[k].pair] == entries[k].review
    ensures forall id :: id in ReviewTable(entries[..n]) ==> exists k :: 0 <= k < n && entries[k].pair == id
  {
    if n > 0 {
      ReviewTableMeans(m, entries, n - 1);
      assert entries[..n][..n - 1] == entries[..n - 1];
      assert EntryOk(m, entries, n - 1);
    }
  }

  function ExcludedPairs(m: Manifest, capture: Capture, entries: seq<Entry>): seq<Excluded> {
    var pairs := ReportPairs(m, entries);
    ExcludedOf(IndexOf(m.scope, Merged(capture)), pairs, |pairs|)
  }

  function EvaluatedPairs(m: Manifest, capture: Capture, entries: seq<Entry>): seq<PairResult> {
    var pairs := ReportPairs(m, entries);
    EvaluatedOf(IndexOf(m.scope, Merged(capture)), capture.order, ReviewTable(entries), pairs, |pairs|)
  }

  /** `compute_full`, up to the deliveries. */
  method ComputeReport(m: Manifest, capture: Capture, entries: seq<Entry>) returns (r: Result<Report, ReportError>)
    ensures r.Ok? <==> ManifestOk(m) && EntriesOk(m, entries, |entries|)
    ensures r.Err? ==> (r.error.InvalidManifest? <==> !ManifestOk(m))
    ensures r.Ok? ==>
              && r.value.excluded == ExcludedPairs(m, capture, entries)
              && r.value.evaluated == EvaluatedPairs(m, capture, entries)
              && var evaluated := r.value.evaluated;
                 && IsDiscovery(r.value.discovery, evaluated)
                 && r.value.reuse == Reuse(|TasksOf(evaluated)|, |VerifiedTasks(evaluated)|)
                 && r.value.mechanism == Mechanism(|Effects(evaluated)|, |Batches(Effects(evaluated))|,
                                                   AuthorExits(evaluated), GoalMet(capture, evaluated))
  {
    hide ManifestOk, EntriesOk, IndexOf, Merged, EvaluatedOf, ExcludedOf, GoalMet, TasksOf, VerifiedTasks, Effects,
         Batches, AuthorExits, IsDiscovery;
    var valid := ValidateManifest(m);
    if !valid {
      return Err(InvalidManifest);
    }
    var enrolled := MergePairs(m, entries);
    if enrolled.Err? {
      return Err(InvalidReviews(enrolled.error));
    }
    var records, _, _ := Merge(capture);
    var idx := BuildIndex(m.scope, records);
    var pairs := Sort(enrolled.value, BY_PAIR_ID);
    var excluded, evaluated := EvaluatePairs(idx, capture.order, ReviewTable(entries), pairs);
    var discovery := Discover(evaluated);
    var reuse := CountReuse(evaluated);
    var mechanism := CertifyGoal(capture, evaluated);
    r := Ok(Report(excluded, evaluated, discovery, reuse, mechanism));
  }

  // ----- what a met goal is worth -----------------------------------------------------------------

  /** Resolved evidence in terms of the records: a non-empty list of ids, each of
      a captured artifact of the repository that keeps its contract and that no
      record breaking its own shares. */
  ghost predicate Grounded(scope: Scope, records: seq<Record>, evidence: EvidenceList, repo: string) {
    && evidence.Items? && evidence.items != []
    && forall e :: e in evidence.items ==> e.Some? && NotBlank(e.value) && Grounds(scope, records, e.value, repo)
  }

  ghost predicate Grounds(scope: Scope, records: seq<Record>, id: string, repo: string) {
    && (exists t :: t in records && t.id == Some(id) && t.scope == repo && KeepsContract(t))
    && (forall t :: t in records && IdOf(t) == id ==> !BreaksContract(scope, t))
  }

  lemma ResolvedIsGrounded(scope: Scope, records: seq<Record>, evidence: EvidenceList, repo: string)
    requires var idx := IndexOf(scope, records); Check(evidence, idx.byId, idx.rejected, repo) == Resolved
    ensures Grounded(scope, records, evidence, repo)
  {
    hide IndexOf, KeepsContract, NotBlank, BreaksContract, IdOf, Check;
    var idx := IndexOf(scope, records);
    EvidenceMeans(evidence, idx.byId, idx.rejected, repo);
    ByIdMembers(scope, records);
    TablesMean(scope, records);
    forall e | e in evidence.items
      ensures e.Some? && NotBlank(e.value) && Grounds(scope, records, e.value, repo)
    {
      assert SupportedBy(e.value, idx.byId, idx.rejected, repo);
      assert idx.byId[e.value] in records;
    }
  }

  /** The receipt: the consumer's own artifact, by the exact generation, saying it
      used or adapted the source, on grounded evidence, not before the source. */
  ghost predicate ProvesReuse(scope: Scope, records: seq<Record>, p: Pair, source: Record, receipt: Record) {
    && receipt in records && GenuineArtifact(receipt, "reuse") && InFrame(scope, receipt.scope, receipt.createdAt)
    && receipt.scope == p.repo && receipt.payload.spawn == p.consumerGeneration
    && receipt.payload.source == p.source && receipt.payload.task == p.consumerTask
    && (receipt.payload.outcome == Some("used") || receipt.payload.outcome == Some("adapted"))
    && Grounded(scope, records, receipt.payload.evidence, p.repo)
    && source.createdAt.Some? && receipt.createdAt.Some? && source.createdAt.value <= receipt.createdAt.value
  }

  /** The operator's word on that receipt, on grounded evidence. */
  ghost predicate Confirms(scope: Scope, records: seq<Record>, p: Pair, receipt: Record, verdict: Record) {
    && verdict in records
    && verdict.category == "artifact" && verdict.lifecycle == "furniture" && verdict.kind == Kind("assessment")
    && verdict.schemaOne && verdict.mintedIdentity
    && verdict.instance == "operator" && verdict.payload.agent == "operator"
    && InFrame(scope, verdict.scope, verdict.createdAt)
    && verdict.payload.receipt == IdOf(receipt) && verdict.scope == p.repo
    && verdict.payload.verdict == Some("verified") && Grounded(scope, records, verdict.payload.evidence, p.repo)
  }

  ghost predicate WasPrepared(scope: Scope, records: seq<Record>, reviews: Reviews, p: Pair) {
    || (exists t :: t in records && Shows(scope, t, p.repo, p.source, p.consumerGeneration))
    || (p.id in reviews && reviews[p.id].coverage.PreparedBy?)
  }

  ghost predicate WasLaunched(scope: Scope, records: seq<Record>, p: Pair) {
    exists t, l :: t in records && ProvesLaunch(scope, t, l) && l.repo == p.repo && l.spawn == p.consumerGeneration
  }

  /** Everything a counted effect stands on. */
  ghost predicate ProvedEffect(scope: Scope, records: seq<Record>, reviews: Reviews, p: Pair, source: Record,
      receipt: Record) {
    && source in records && source.id == Some(p.source) && GenuineSource(source, p.repo)
    && (source.payload.spawn == "" || source.payload.spawn != p.consumerGeneration)
    && (source.kind != NoKind ==> Grounded(scope, records, source.payload.evidence, p.repo))
    && ProvesReuse(scope, records, p, source, receipt)
    && (exists verdict :: Confirms(scope, records, p, receipt, verdict))
    && WasPrepared(scope, records, reviews, p) && WasLaunched(scope, records, p)
    && !(p.id in reviews && reviews[p.id].relayedByOperator)
  }

  lemma EffectReceipt(scope: Scope, records: seq<Record>, p: Pair, source: Record)
    requires FirstClaim(IndexOf(scope, records), p, source, IndexOf(scope, records).receipts).Some?
    ensures var claim := FirstClaim(IndexOf(scope, records), p, source, IndexOf(scope, records).receipts).value;
            source.createdAt.Some? && (claim.payload.outcome == Some("used")
                || claim.payload.outcome == Some("adapted")) ==>
              ProvesReuse(scope, records, p, source, claim)
  {
    hide IndexOf, FirstClaim, Grounded, Check, GenuineArtifact, InFrame;
    var idx := IndexOf(scope, records);
    var claim := FirstClaim(idx, p, source, idx.receipts).value;
    ClaimIsFirst(idx, p, source, idx.receipts);
    TablesMean(scope, records);
    ResolvedIsGrounded(scope, records, claim.payload.evidence, p.repo);
  }

  lemma EffectVerdict(scope: Scope, records: seq<Record>, order: Order, p: Pair, receipt: Record)
    ensures var idx := IndexOf(scope, records);
            var v := CurrentVerdict(order, TrustedVerdicts(idx, p, IdOf(receipt), idx.verdicts));
            v.Some? && v.value.payload.verdict == Some("verified") ==> Confirms(scope, records, p, receipt, v.value)
  {
    hide IndexOf, Grounded, Check, IdOf, InFrame, TrustedVerdicts;
    var idx := IndexOf(scope, records);
    var candidates := TrustedVerdicts(idx, p, IdOf(receipt), idx.verdicts);
    var v := CurrentVerdict(order, candidates);
    if v.Some? {
      CandidatesMean(scope, records, p, IdOf(receipt));
      var c := if |candidates| == 1 then candidates[0] else Latest(candidates);
      assert c in candidates && v.value == c.record;
      ResolvedIsGrounded(scope, records, v.value.payload.evidence, p.repo);
    }
  }

  lemma EffectCoverage(scope: Scope, records: seq<Record>, reviews: Reviews, p: Pair)
    ensures var coverage := CoverageOf(IndexOf(scope, records), p, ReviewOf(reviews, p));
            coverage == PreparedNative || coverage == PreparedReviewed ==> WasPrepared(scope, records, reviews, p)
    ensures SeenRunning(IndexOf(scope, records), p.repo, p.consumerGeneration) ==> WasLaunched(scope, records, p)
  {
    hide IndexOf, Shows, ProvesLaunch, CoverageOf;
    CoverageMeans(IndexOf(scope, records), p, ReviewOf(reviews, p));
    ExposureTablesMean(scope, records, p.repo, p.source, p.consumerGeneration);
    TablesMean(scope, records);
  }

  lemma EffectSource(scope: Scope, records: seq<Record>, p: Pair)
    requires Exclusion(IndexOf(scope, records), p).None?
    ensures var source := IndexOf(scope, records).byId[p.source];
            && source in records && source.id == Some(p.source) && GenuineSource(source, p.repo)
            && (source.payload.spawn == "" || source.payload.spawn != p.consumerGeneration)
    ensures var idx, source := IndexOf(scope, records), IndexOf(scope, records).byId[p.source];
            source.kind != NoKind && Check(source.payload.evidence, idx.byId, idx.rejected, p.repo) != Unknown ==>
              Grounded(scope, records, source.payload.evidence, p.repo)
  {
    hide IndexOf, Check, GenuineSource, Exclusion, Grounded;
    var idx := IndexOf(scope, records);
    ByIdMembers(scope, records);
    ExclusionMeans(idx, p);
    var source := idx.byId[p.source];
    if Check(source.payload.evidence, idx.byId, idx.rejected, p.repo) == Resolved {
      ResolvedIsGrounded(scope, records, source.payload.evidence, p.repo);
    }
  }

  lemma SourceDeclares(t: Record, repo: string)
    requires GenuineSource(t, repo)
    ensures t.kind != NoKind ==> t.kind == Kind("finding") || t.kind == Kind("answer")
  {
  }

  /** A counted effect rests on raw records alone. */
  lemma EffectIsProved(scope: Scope, records: seq<Record>, order: Order, reviews: Reviews, p: Pair)
    requires Exclusion(IndexOf(scope, records), p).None?
    requires Evaluate(IndexOf(scope, records), order, p, ReviewOf(reviews, p)).countsAsEffect
    ensures var r := Evaluate(IndexOf(scope, records), order, p, ReviewOf(reviews, p));
            && r.claim.Some?
            && ProvedEffect(scope, records, reviews, p, IndexOf(scope, records).byId[p.source], r.claim.value)
  {
    hide IndexOf, Grounded, Check, ProvesReuse, Confirms, WasPrepared, WasLaunched, CoverageOf, SeenRunning, Evaluate,
         CurrentVerdict, TrustedVerdicts, FirstClaim, GenuineSource, Exclusion;
    var idx := IndexOf(scope, records);
    var source := idx.byId[p.source];
    var r := Evaluate(idx, order, p, ReviewOf(reviews, p));
    EffectMeans(idx, order, p, ReviewOf(reviews, p));
    EffectSource(scope, records, p);
    SourceDeclares(source, p.repo);
    EffectReceipt(scope, records, p, source);
    EffectVerdict(scope, records, order, p, r.claim.value);
    VerdictOfResult(idx, order, p, ReviewOf(reviews, p));
    EffectCoverage(scope, records, reviews, p);
  }

  lemma VerdictOfResult(idx: Index, order: Order, p: Pair, review: Option<Review>)
    requires p.source in idx.byId && Evaluate(idx, order, p, review).claim.Some?
    ensures var r := Evaluate(idx, order, p, review);
            && r.verdict == CurrentVerdict(order, TrustedVerdicts(idx, p, IdOf(r.claim.value), idx.verdicts))
            && r.coverage == CoverageOf(idx, p, review)
  {
    hide FirstClaim, CurrentVerdict, TrustedVerdicts, CoverageOf, Launched, AuthorExited, Check;
  }

  /** An effect credited with the author's exit has the exit record to show. */
  lemma EffectAuthorExit(scope: Scope, records: seq<Record>, order: Order, reviews: Reviews, p: Pair)
    requires p.source in IndexOf(scope, records).byId
    requires var r := Evaluate(IndexOf(scope, records), order, p, ReviewOf(reviews, p)); r.authorTerminal.Some?
    ensures var r := Evaluate(IndexOf(scope, records), order, p, ReviewOf(reviews, p));
            r.claim.Some? && r.claim.value.createdAt.Some?
    ensures var r := Evaluate(IndexOf(scope, records), order, p, ReviewOf(reviews, p));
            exists e :: ExitProved(scope, records, e, p.repo, IndexOf(scope, records).byId[p.source],
                r.claim.value.createdAt.value)
  {
    hide IndexOf, Check, CoverageOf, Launched, CurrentVerdict, TrustedVerdicts, FirstClaim, AuthorExited, IsPrepared,
         DeclaresEvidence, ExitProved, ChangedWork;
    var idx := IndexOf(scope, records);
    var r := Evaluate(idx, order, p, ReviewOf(reviews, p));
    var claimAt := if r.claim.Some? then r.claim.value.createdAt else None;
    AuthorExitIsProved(scope, records, r.authorTerminal.value, p, idx.byId[p.source], claimAt);
  }

  lemma {:induction false} EffectsMembers(evaluated: seq<PairResult>)
    ensures forall r :: r in Effects(evaluated) <==> r in evaluated && r.countsAsEffect
    ensures AuthorExits(evaluated) > 0 <==> exists r :: r in Effects(evaluated) && r.authorTerminal.Some?
  {
    if evaluated != [] {
      EffectsMembers(evaluated[..|evaluated| - 1]);
      assert evaluated == evaluated[..|evaluated| - 1] + [evaluated[|evaluated| - 1]];
    }
  }

  lemma {:induction false} EffectsDiffer(evaluated: seq<PairResult>)
    requires DistinctKeys(evaluated)
    ensures DistinctKeys(Effects(evaluated))
  {
    if evaluated != [] {
      var n := |evaluated| - 1;
      EffectsDiffer(evaluated[..n]);
      EffectsMembers(evaluated[..n]);
      var before := Effects(evaluated[..n]);
      forall i | 0 <= i < |before|
        ensures !SameOpportunity(before[i].pair, evaluated[n].pair)
      {
        assert before[i] in evaluated[..n];
      }
    }
  }

  lemma TwoBatches(batches: set<string>)
    requires |batches| >= 2
    ensures exists a, b :: a in batches && b in batches && a != b
  {
    var a :| a in batches;
    assert |batches - {a}| >= 1;
    var b :| b in batches - {a};
  }

  /** One counted pair of the report. */
  ghost predicate EffectStands(m: Manifest, capture: Capture, entries: seq<Entry>, r: PairResult) {
    var records := Merged(capture);
    && r.pair in Enrolled(m, entries) && InFrozenScope(m, r.pair)
    && r.claim.Some? && r.claim.value.createdAt.Some?
    && exists source :: ProvedEffect(m.scope, records, ReviewTable(entries), r.pair, source, r.claim.value)
                        && (r.authorTerminal.Some? ==>
                              exists e :: ExitProved(m.scope, records, e, r.pair.repo, source,
                                  r.claim.value.createdAt.value))
  }

  /** A met goal stands on three or more effects over pairwise different
      occurrences, from two or more batches, each proved by the records, at least
      one after its author's exit, in a capture without a known hole. */
  lemma GoalMetMeans(m: Manifest, capture: Capture, entries: seq<Entry>)
    requires ManifestOk(m) && EntriesOk(m, entries, |entries|)
    requires GoalMet(capture, EvaluatedPairs(m, capture, entries))
    ensures var effects := Effects(EvaluatedPairs(m, capture, entries));
            && |effects| >= 3 && DistinctKeys(effects)
            && (forall r :: r in effects ==> EffectStands(m, capture, entries, r))
            && (exists a, b :: a in effects && b in effects && a.pair.batch != b.pair.batch)
            && (exists r :: r in effects && r.authorTerminal.Some?)
    ensures !capture.truncated && capture.complete != Some(false) && capture.missingReferences == []
  {
    hide EffectStands, ManifestOk, EntriesOk, ReportPairs, IndexOf, Merged, ReviewTable, Effects, EvaluatedOf;
    var pairs := ReportPairs(m, entries);
    var idx := IndexOf(m.scope, Merged(capture));
    var evaluated := EvaluatedPairs(m, capture, entries);
    var effects := Effects(evaluated);
    KeysDiffer(idx, capture.order, ReviewTable(entries), pairs, |pairs|);
    EffectsDiffer(evaluated);
    EffectsMembers(evaluated);
    TwoBatches(Batches(effects));
    forall r | r in effects
      ensures EffectStands(m, capture, entries, r)
    {
      EffectsStand(m, capture, entries, r);
    }
  }

  lemma EffectsStand(m: Manifest, capture: Capture, entries: seq<Entry>, r: PairResult)
    requires ManifestOk(m) && EntriesOk(m, entries, |entries|)
    requires r in EvaluatedPairs(m, capture, entries) && r.countsAsEffect
    ensures EffectStands(m, capture, entries, r)
  {
    hide ManifestOk, EntriesOk, ReportPairs, IndexOf, Merged, ReviewTable, EvaluatedOf, ExclusionAt, Evaluate,
         Exclusion, ProvedEffect, ExitProved, InFrozenScope;
    var pairs, records, reviews := ReportPairs(m, entries), Merged(capture), ReviewTable(entries);
    var idx := IndexOf(m.scope, records);
    EvaluatedAre(idx, capture.order, reviews, pairs, |pairs|);
    var k :| 0 <= k < |pairs| && EvaluatedAt(idx, capture.order, reviews, pairs, k, r);
    var p := pairs[k];
    NotExcluded(idx, pairs, k);
    EvaluateKeepsPair(idx, capture.order, p, ReviewOf(reviews, p));
    EffectIsProved(m.scope, records, capture.order, reviews, p);
    if r.authorTerminal.Some? {
      EffectAuthorExit(m.scope, records, capture.order, reviews, p);
    }
    ReportOrder(m, entries);
    EnrollmentIsSound(m, entries);
    assert r.claim.value.createdAt.Some? by {
      DropProof(m.scope, records, reviews, p, idx.byId[p.source], r.claim.value);
    }
  }

  lemma DropProof(scope: Scope, records: seq<Record>, reviews: Reviews, p: Pair, source: Record, receipt: Record)
    requires ProvedEffect(scope, records, reviews, p, source, receipt)
    ensures ProvesReuse(scope, records, p, source, receipt)
  {
  }

  lemma NotExcluded(idx: Index, pairs: seq<Pair>, k: nat)
    requires k < |pairs| && ExclusionAt(idx, pairs, k).None?
    ensures Exclusion(idx, pairs[k]).None?
  {
  }

  // ----- bad claims erase nothing ------------------------------------------------------------------

  /** An id that a pair's source is named by, or that the evidence of a pair's
      source lists. */
  predicate Named(byId: ById, pairs: seq<Pair>, id: string) {
    exists p :: p in pairs && (p.source == id || (p.source in byId && Lists(byId[p.source].payload.evidence, id)))
  }

  predicate Lists(evidence: EvidenceList, id: string) {
    evidence.Items? && Some(id) in evidence.items
  }

  /** Two indexes that tell the same about every named id. */
  ghost predicate AgreeOnNamed(a: Index, b: Index, pairs: seq<Pair>) {
    forall id :: Named(a.byId, pairs, id) ==>
      && (id in a.byId <==> id in b.byId) && (id in a.byId ==> a.byId[id] == b.byId[id])
      && (id in a.rejected <==> id in b.rejected)
  }

  lemma SameCheck(a: Index, b: Index, evidence: EvidenceList, repo: string)
    requires forall id :: Lists(evidence, id) ==>
               && (id in a.byId <==> id in b.byId) && (id in a.byId ==> a.byId[id] == b.byId[id])
               && (id in a.rejected <==> id in b.rejected)
    ensures Check(evidence, a.byId, a.rejected, repo) == Check(evidence, b.byId, b.rejected, repo)
  {
    hide IsBlank, ContractOk;
    if evidence.Items? {
      var items := evidence.items;
      forall i | 0 <= i < |items| && items[i].Some?
        ensures Resolves(items[i].value, a.byId, a.rejected, repo) <==>
                Resolves(items[i].value, b.byId, b.rejected, repo)
        ensures Missing(items[i].value, a.byId, a.rejected) <==> Missing(items[i].value, b.byId, b.rejected)
      {
        assert Lists(evidence, items[i].value);
      }
    }
  }

  lemma SameExclusion(a: Index, b: Index, pairs: seq<Pair>, p: Pair)
    requires AgreeOnNamed(a, b, pairs) && p in pairs
    ensures Exclusion(a, p) == Exclusion(b, p)
  {
    hide SourceOk, Check, DeclaresEvidence;
    assert Named(a.byId, pairs, p.source);
    if p.source in a.byId {
      var evidence := a.byId[p.source].payload.evidence;
      forall id | Lists(evidence, id)
        ensures Named(a.byId, pairs, id)
      {
      }
      SameCheck(a, b, evidence, p.repo);
    }
  }

  function PairsOf(evaluated: seq<PairResult>): seq<Pair> {
    if evaluated == [] then [] else PairsOf(evaluated[..|evaluated| - 1]) + [evaluated[|evaluated| - 1].pair]
  }

  lemma {:induction false} SamePairs(a: Index, b: Index, x: Order, y: Order, reviews: Reviews, pairs: seq<Pair>, n: nat)
    requires AgreeOnNamed(a, b, pairs) && n <= |pairs|
    ensures ExcludedOf(a, pairs, n) == ExcludedOf(b, pairs, n)
    ensures PairsOf(EvaluatedOf(a, x, reviews, pairs, n)) == PairsOf(EvaluatedOf(b, y, reviews, pairs, n))
  {
    hide AgreeOnNamed, ExclusionAt, PairsOf, EvaluatedOf, ExcludedOf;
    if n > 0 {
      SamePairs(a, b, x, y, reviews, pairs, n - 1);
      SameExclusionAt(a, b, pairs, n - 1);
      OneMorePair(a, x, reviews, pairs, n - 1);
      OneMorePair(b, y, reviews, pairs, n - 1);
      OneMoreExcluded(a, pairs, n - 1);
      OneMoreExcluded(b, pairs, n - 1);
    } else {
      NoPairs(a, b, x, y, reviews, pairs);
    }
  }

  lemma SameExclusionAt(a: Index, b: Index, pairs: seq<Pair>, n: nat)
    requires AgreeOnNamed(a, b, pairs) && n < |pairs|
    ensures ExclusionAt(a, pairs, n) == ExclusionAt(b, pairs, n)
  {
    hide AgreeOnNamed, Exclusion;
    SameExclusion(a, b, pairs, pairs[n]);
  }

  lemma OneMorePair(idx: Index, order: Order, reviews: Reviews, pairs: seq<Pair>, n: nat)
    requires n < |pairs|
    ensures PairsOf(EvaluatedOf(idx, order, reviews, pairs, n + 1)) ==
            PairsOf(EvaluatedOf(idx, order, reviews, pairs, n))
            + if ExclusionAt(idx, pairs, n).None? then [pairs[n]] else []
  {
    hide ExclusionAt, Evaluate;
    if ExclusionAt(idx, pairs, n).None? {
      EvaluateKeepsPair(idx, order, pairs[n], ReviewOf(reviews, pairs[n]));
      var v := EvaluatedOf(idx, order, reviews, pairs, n + 1);
      assert v[..|v| - 1] == EvaluatedOf(idx, order, reviews, pairs, n);
    }
  }

  lemma OneMoreExcluded(idx: Index, pairs: seq<Pair>, n: nat)
    requires n < |pairs|
    ensures ExcludedOf(idx, pairs, n + 1) ==
            ExcludedOf(idx, pairs, n)
            + if ExclusionAt(idx, pairs, n).Some? then [Excluded(pairs[n].id, ExclusionAt(idx, pairs, n).value)] else []
  {
    hide ExclusionAt;
  }

  lemma NoPairs(a: Index, b: Index, x: Order, y: Order, reviews: Reviews, pairs: seq<Pair>)
    ensures ExcludedOf(a, pairs, 0) == ExcludedOf(b, pairs, 0)
    ensures PairsOf(EvaluatedOf(a, x, reviews, pairs, 0)) == PairsOf(EvaluatedOf(b, y, reviews, pairs, 0))
  {
  }

  /** No two records share an id. */
  ghost predicate DistinctIds(records: seq<Record>) {
    forall s, t :: s in records && t in records && s.id.Some? && s.id == t.id ==> s == t
  }

  /** `more` has the records of `records` and others that nothing names. */
  ghost predicate AddsUnnamed(scope: Scope, records: seq<Record>, more: seq<Record>, pairs: seq<Pair>) {
    && (forall t :: t in records ==> t in more)
    && (forall t :: t in more && t !in records ==> !Named(IndexOf(scope, records).byId, pairs, RecordId(t)))
  }

  lemma UnnamedAgree(scope: Scope, records: seq<Record>, more: seq<Record>, pairs: seq<Pair>)
    requires DistinctIds(more) && AddsUnnamed(scope, records, more, pairs)
    ensures AgreeOnNamed(IndexOf(scope, records), IndexOf(scope, more), pairs)
  {
    hide IndexOf, IsRejected, Named;
    var a, b := IndexOf(scope, records), IndexOf(scope, more);
    ByIdMembers(scope, records);
    ByIdMembers(scope, more);
    RejectedMembers(scope, records);
    RejectedMembers(scope, more);
    forall id | Named(a.byId, pairs, id)
      ensures (id in a.byId <==> id in b.byId) && (id in a.byId ==> a.byId[id] == b.byId[id])
      ensures id in a.rejected <==> id in b.rejected
    {
      if id in a.byId {
        assert a.byId[id] in more;
      }
      if id in b.byId {
        assert b.byId[id] in records;
      }
    }
  }

  /** Records that no pair and no evidence of a pair's source names - receipts,
      assessments or anything else, well-formed or not - leave the opportunities,
      the exclusions and the eligible tasks as they were. */
  lemma BadClaimsEraseNothing(m: Manifest, a: Capture, b: Capture, entries: seq<Entry>)
    requires DistinctIds(Merged(b)) && AddsUnnamed(m.scope, Merged(a), Merged(b), ReportPairs(m, entries))
    ensures ExcludedPairs(m, a, entries) == ExcludedPairs(m, b, entries)
    ensures PairsOf(EvaluatedPairs(m, a, entries)) == PairsOf(EvaluatedPairs(m, b, entries))
    ensures TasksOf(EvaluatedPairs(m, a, entries)) == TasksOf(EvaluatedPairs(m, b, entries))
  {
    hide DistinctIds, AddsUnnamed, Merged, IndexOf, ReportPairs, ReviewTable, TasksOf, PairsOf;
    var pairs := ReportPairs(m, entries);
    UnnamedAgree(m.scope, Merged(a), Merged(b), pairs);
    SamePairs(IndexOf(m.scope, Merged(a)), IndexOf(m.scope, Merged(b)), a.order, b.order, ReviewTable(entries), pairs,
        |pairs|);
    TasksFromPairs(EvaluatedPairs(m, a, entries));
    TasksFromPairs(EvaluatedPairs(m, b, entries));
  }

  lemma {:induction false} TasksFromPairs(evaluated: seq<PairResult>)
    ensures TasksOf(evaluated) == set p | p in PairsOf(evaluated) :: (p.repo, p.consumerTask)
  {
    if evaluated != [] {
      var n := |evaluated| - 1;
      TasksFromPairs(evaluated[..n]);
      assert evaluated == evaluated[..n] + [evaluated[n]];
      assert TasksOf(evaluated) == TasksOf(evaluated[..n]) + {TaskOf(evaluated[n])};
    }
  }
}
