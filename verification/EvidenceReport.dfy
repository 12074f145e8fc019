/** The pair evaluation of `compute_full` in `bbs_report.rs`: which enrolled pairs
    are opportunities, which receipt and which verdict count, when a source's
    author is proved to have exited, and when the mechanism goal is met. */
module EvidenceReport {
  import opened Basics
  import opened EvidenceRecords
  import opened TupleCapture
  import opened EvidenceIndex

  datatype Pair = Pair(
    id: string, source: string, consumerTask: string, consumerGeneration: string, repo: string, batch: string)

  datatype ReviewedCoverage = PreparedBy(evidence: string) | NotPreparedBy(evidence: string) | NotStated

  datatype Review = Review(
    coverage: ReviewedCoverage,
    authorTerminalEvidence: Option<string>,
    relayedByOperator: bool,
    regression: bool)

  const MECHANISM_EFFECTS_REQUIRED := 3
  const MECHANISM_BATCHES_REQUIRED := 2
  const MECHANISM_AUTHOR_EXIT_REQUIRED := 1

  datatype Reason = Duplicate | SourceNotCaptured | InvalidSource | SelfUse | InvalidSourceEvidence

  datatype Excluded = Excluded(pair: string, reason: Reason)

  /** Coverage and its provenance. */
  datatype Coverage = PreparedNative | PreparedNotLaunched | PreparedReviewed | NotPrepared | UnknownCoverage

  datatype PairResult = PairResult(
    pair: Pair,
    sourceEvidence: Option<EvidenceCheck>,
    coverage: Coverage,
    consumerLaunched: bool,
    opens: bool,
    claim: Option<Record>,
    verdict: Option<Record>,
    authorTerminal: Option<string>,
    relayedByOperator: bool,
    regression: bool,
    verifiedEffect: bool,
    countsAsEffect: bool)

  type Key = (string, string, string, string)

  function KeyOf(p: Pair): Key {
    (p.repo, p.source, p.consumerTask, p.consumerGeneration)
  }

  // ----- opportunities ----------------------------------------------------------------

  predicate DeclaresEvidence(t: Record) {
    t.kind == Kind(FINDING) || t.kind == Kind(ANSWER)
  }

  /** Why a pair is no opportunity at all, apart from being a duplicate. */
  function Exclusion(idx: Index, p: Pair): (reason: Option<Reason>)
    ensures reason.None? ==> p.source in idx.byId
  {
    if p.source !in idx.byId then Some(SourceNotCaptured)
    else
      var source := idx.byId[p.source];
      if !SourceOk(source, p.repo) then Some(InvalidSource)
      else if source.payload.spawn != "" && source.payload.spawn == p.consumerGeneration then Some(SelfUse)
      else if DeclaresEvidence(source) && Check(source.payload.evidence, idx.byId, idx.rejected, p.repo) == Invalid
      then Some(InvalidSourceEvidence)
      else None
  }

  // ----- receipts and verdicts ----------------------------------------------------------

  /** A receipt for this source and task. */
  predicate IsCandidate(p: Pair, c: Record) {
    c.payload.source == p.source && c.payload.task == p.consumerTask
  }

  /** A receipt that supports a claim: written in the pair's repository by its
      exact generation, on resolved evidence, not before its source. */
  predicate SupportsClaim(idx: Index, p: Pair, source: Record, c: Record) {
    && IsCandidate(p, c) && c.scope == p.repo && c.payload.spawn == p.consumerGeneration
    && Check(c.payload.evidence, idx.byId, idx.rejected, p.repo) == Resolved
    && c.createdAt.Some?
    && (source.createdAt.Some? ==> source.createdAt.value <= c.createdAt.value)
  }

  /** The first receipt, in capture order, that supports the claim. */
  function FirstClaim(idx: Index, p: Pair, source: Record, receipts: seq<Record>): (claim: Option<Record>)
    ensures claim.Some? ==> claim.value in receipts && SupportsClaim(idx, p, source, claim.value)
    ensures claim.None? ==> forall c :: c in receipts ==> !SupportsClaim(idx, p, source, c)
  {
    if receipts == [] then None
    else if SupportsClaim(idx, p, source, receipts[0]) then Some(receipts[0])
    else
      assert forall c :: c in receipts ==> c == receipts[0] || c in receipts[1..];
      FirstClaim(idx, p, source, receipts[1..])
  }

  /** A verdict on this receipt that can be trusted for the pair. */
  predicate Trusted(idx: Index, p: Pair, receipt: string, a: Record) {
    && a.payload.receipt == receipt && a.scope == p.repo
    && Check(a.payload.evidence, idx.byId, idx.rejected, p.repo) == Resolved
  }

  function TrustedVerdicts(idx: Index, p: Pair, receipt: string, verdicts: seq<Placed>): seq<Placed> {
    if verdicts == [] then []
    else
      var n := |verdicts| - 1;
      TrustedVerdicts(idx, p, receipt, verdicts[..n])
      + if Trusted(idx, p, receipt, verdicts[n].record) then [verdicts[n]] else []
  }

  /** The candidate with the greatest capture position; the last one of equals. */
  function Latest(candidates: seq<Placed>): (v: Placed)
    requires candidates != []
    ensures v in candidates && forall c :: c in candidates ==> c.position <= v.position
  {
    var n := |candidates| - 1;
    if n == 0 then
      assert forall c :: c in candidates ==> c == candidates[0];
      candidates[0]
    else
      var before := Latest(candidates[..n]);
      assert forall c :: c in candidates ==> c in candidates[..n] || c == candidates[n];
      if before.position <= candidates[n].position then candidates[n] else before
  }

  /** One verdict stands; among several, only a validated persistence order says
      which is current. */
  function CurrentVerdict(order: Order, candidates: seq<Placed>): Option<Record> {
    if candidates == [] then None
    else if |candidates| == 1 then Some(candidates[0].record)
    else if order.PersistenceSequence? then Some(Latest(candidates).record)
    else None
  }

  // ----- author exit ------------------------------------------------------------------------

  predicate IsRelaunch(l: LaunchRow, repo: string, spawn: string, session: string, after: Time, until: Time) {
    && l.repo == repo && l.spawn == spawn && l.session != Some(session)
    && l.at.Some? && after < l.at.value <= until
  }

  predicate RelaunchBetween(launches: seq<LaunchRow>, repo: string, spawn: string, session: string, after: Time,
      until: Time) {
    exists i :: 0 <= i < |launches| && IsRelaunch(launches[i], repo, spawn, session, after, until)
  }

  function FindExit(exits: seq<ExitRow>, record: string): (e: Option<ExitRow>)
    ensures e.Some? ==> e.value in exits && e.value.record == record
  {
    if exits == [] then None
    else if exits[0].record == record then Some(exits[0])
    else FindExit(exits[1..], record)
  }

  /** `resolve_author_exit`: the named record credits the exit of the source's
      author before the claim. */
  predicate AuthorExited(idx: Index, evidence: string, p: Pair, source: Record, claimAt: Option<Time>) {
    && evidence in idx.byId
    && var ev := idx.byId[evidence];
       && !IsHarnessResult(ev) && ev.identity != "agent_lifecycle"
       && ClaimsKind(ev, AGENT_EXIT) && TelemetryOk(ev, AGENT_EXIT)
       && source.payload.spawn != ""
       && FindExit(idx.exits, evidence).Some?
       && ExitCredits(idx.launches, FindExit(idx.exits, evidence).value, p.repo, source, claimAt)
  }

  predicate ExitCredits(launches: seq<LaunchRow>, exit: ExitRow, repo: string, source: Record, claimAt: Option<Time>) {
    && exit.repo == repo
    && !IsBlank(source.payload.task) && exit.task == source.payload.task
    && exit.spawn == source.payload.spawn
    && (source.payload.agent != "" && exit.agent != "" ==> exit.agent == source.payload.agent)
    && exit.staleSession != Some(true)
    && exit.exitedAt.Some? && claimAt.Some? && exit.exitedAt.value <= claimAt.value
    && !RelaunchBetween(launches, repo, source.payload.spawn, exit.session, exit.exitedAt.value, claimAt.value)
  }

  // ----- one pair ------------------------------------------------------------------------------

  predicate Launched(idx: Index, repo: string, spawn: string) {
    exists i :: 0 <= i < |idx.launches| && idx.launches[i].repo == repo && idx.launches[i].spawn == spawn
  }

  function CoverageOf(idx: Index, p: Pair, review: Option<Review>): Coverage {
    if Exposure(p.repo, p.source, p.consumerGeneration) in idx.prepared then
      if Launched(idx, p.repo, p.consumerGeneration) then PreparedNative else PreparedNotLaunched
    else if review.Some? && review.value.coverage.PreparedBy? then PreparedReviewed
    else if review.Some? && review.value.coverage.NotPreparedBy? then NotPrepared
    else UnknownCoverage
  }

  predicate ChangedWork(claim: Option<Record>) {
    claim.Some? && (claim.value.payload.outcome == Some("used") || claim.value.payload.outcome == Some("adapted"))
  }

  predicate IsPrepared(c: Coverage) {
    c == PreparedNative || c == PreparedReviewed
  }

  /** The evaluation of an opportunity. */
  function Evaluate(idx: Index, order: Order, p: Pair, review: Option<Review>): PairResult
    requires p.source in idx.byId
  {
    var source := idx.byId[p.source];
    var evidence :=
      if DeclaresEvidence(source) then Some(Check(source.payload.evidence, idx.byId, idx.rejected, p.repo)) else None;
    var claim := FirstClaim(idx, p, source, idx.receipts);
    var verdict :=
      if claim.None? then None
      else CurrentVerdict(order, TrustedVerdicts(idx, p, RecordId(claim.value), idx.verdicts));
    var claimAt := if claim.Some? then claim.value.createdAt else None;
    var coverage := CoverageOf(idx, p, review);
    var launched := Launched(idx, p.repo, p.consumerGeneration);
    var terminal :=
      if review.Some? && review.value.authorTerminalEvidence.Some?
         && AuthorExited(idx, review.value.authorTerminalEvidence.value, p, source, claimAt)
      then review.value.authorTerminalEvidence else None;
    var relayed := review.Some? && review.value.relayedByOperator;
    var verified := && ChangedWork(claim) && verdict.Some? && verdict.value.payload.verdict == Some("verified")
                    && source.createdAt.Some? && claimAt.Some? && IsPrepared(coverage) && launched
                    && evidence != Some(Unknown);
    PairResult(p, evidence, coverage, launched, Exposure(p.repo, p.source, p.consumerGeneration) in idx.opens,
               claim, verdict, terminal, relayed, review.Some? && review.value.regression, verified,
               verified && !relayed)
  }

  // ----- all pairs ------------------------------------------------------------------------------

  type Reviews = map<string, Review>

  function ReviewOf(reviews: Reviews, p: Pair): Option<Review> {
    if p.id in reviews then Some(reviews[p.id]) else None
  }

  predicate SeenBefore(pairs: seq<Pair>, n: nat, key: Key) {
    exists k :: 0 <= k < n && k < |pairs| && KeyOf(pairs[k]) == key
  }

  function ExclusionAt(idx: Index, pairs: seq<Pair>, n: nat): (reason: Option<Reason>)
    requires n < |pairs|
    ensures reason.None? ==> pairs[n].source in idx.byId && !SeenBefore(pairs, n, KeyOf(pairs[n]))
  {
    if SeenBefore(pairs, n, KeyOf(pairs[n])) then Some(Duplicate) else Exclusion(idx, pairs[n])
  }

  function ExcludedOf(idx: Index, pairs: seq<Pair>, n: nat): seq<Excluded>
    requires n <= |pairs|
  {
    if n == 0 then []
    else
      var before, reason := ExcludedOf(idx, pairs, n - 1), ExclusionAt(idx, pairs, n - 1);
      if reason.Some? then before + [Excluded(pairs[n - 1].id, reason.value)] else before
  }

  function EvaluatedOf(idx: Index, order: Order, reviews: Reviews, pairs: seq<Pair>, n: nat): seq<PairResult>
    requires n <= |pairs|
  {
    if n == 0 then []
    else
      var before, p := EvaluatedOf(idx, order, reviews, pairs, n - 1), pairs[n - 1];
      if ExclusionAt(idx, pairs, n - 1).None? then before + [Evaluate(idx, order, p, ReviewOf(reviews, p))] else before
  }

  /** The loop over the sorted pairs. */
  method EvaluatePairs(idx: Index, order: Order, reviews: Reviews, pairs: seq<Pair>)
    returns (excluded: seq<Excluded>, evaluated: seq<PairResult>)
    ensures excluded == ExcludedOf(idx, pairs, |pairs|)
    ensures evaluated == EvaluatedOf(idx, order, reviews, pairs, |pairs|)
  {
    var seenKeys: set<Key> := {};
    excluded, evaluated := [], [];
    for n := 0 to |pairs|
      invariant forall key :: key in seenKeys <==> SeenBefore(pairs, n, key)
      invariant excluded == ExcludedOf(idx, pairs, n)
      invariant evaluated == EvaluatedOf(idx, order, reviews, pairs, n)
    {
      var p := pairs[n];
      if KeyOf(p) in seenKeys {
        excluded := excluded + [Excluded(p.id, Duplicate)];
        continue;
      }
      seenKeys := seenKeys + {KeyOf(p)};
      if p.source !in idx.byId {
        excluded := excluded + [Excluded(p.id, SourceNotCaptured)];
        continue;
      }
      var source := idx.byId[p.source];
      if !SourceOk(source, p.repo) {
        excluded := excluded + [Excluded(p.id, InvalidSource)];
        continue;
      }
      if source.payload.spawn != "" && source.payload.spawn == p.consumerGeneration {
        excluded := excluded + [Excluded(p.id, SelfUse)];
        continue;
      }
      if DeclaresEvidence(source) {
        var check := CheckEvidence(source.payload.evidence, idx.byId, idx.rejected, p.repo);
        if check == Invalid {
          excluded := excluded + [Excluded(p.id, InvalidSourceEvidence)];
          continue;
        }
      }
      var result := EvaluateOpportunity(idx, order, p, ReviewOf(reviews, p));
      evaluated := evaluated + [result];
    }
  }

  /** One opportunity: look for the receipt, then for the verdict on it. */
  method EvaluateOpportunity(idx: Index, order: Order, p: Pair, review: Option<Review>) returns (r: PairResult)
    requires p.source in idx.byId
    ensures r == Evaluate(idx, order, p, review)
  {
    hide Check, AuthorExited, Launched, FirstClaim, TrustedVerdicts, CurrentVerdict, DeclaresEvidence, ChangedWork;
    var source := idx.byId[p.source];
    var claim := FindClaim(idx, p, source);
    var verdict: Option<Record> := None;
    var claimAt: Option<Time> := None;
    if claim.Some? {
      claimAt := claim.value.createdAt;
      verdict := FindVerdict(idx, order, p, RecordId(claim.value));
    }
    var evidence: Option<EvidenceCheck> := None;
    if DeclaresEvidence(source) {
      var check := CheckEvidence(source.payload.evidence, idx.byId, idx.rejected, p.repo);
      evidence := Some(check);
    }
    var coverage := Cover(idx, p, review);
    var launched := Launched(idx, p.repo, p.consumerGeneration);
    var terminal: Option<string> := None;
    if review.Some? && review.value.authorTerminalEvidence.Some? {
      if AuthorExited(idx, review.value.authorTerminalEvidence.value, p, source, claimAt) {
        terminal := review.value.authorTerminalEvidence;
      }
    }
    var relayed := review.Some? && review.value.relayedByOperator;
    var temporalOrderKnown := source.createdAt.Some? && claimAt.Some?;
    var verified := && ChangedWork(claim) && verdict.Some? && verdict.value.payload.verdict == Some("verified")
                    && temporalOrderKnown && IsPrepared(coverage) && launched && evidence != Some(Unknown);
    r := PairResult(p, evidence, coverage, launched, Exposure(p.repo, p.source, p.consumerGeneration) in idx.opens,
                    claim, verdict, terminal, relayed,
                    review.Some? && review.value.regression, verified, verified && !relayed);
  }

  /** Native telemetry first, then the operator's judgment. */
  method Cover(idx: Index, p: Pair, review: Option<Review>) returns (coverage: Coverage)
    ensures coverage == CoverageOf(idx, p, review)
  {
    if Exposure(p.repo, p.source, p.consumerGeneration) in idx.prepared {
      coverage := if Launched(idx, p.repo, p.consumerGeneration) then PreparedNative else PreparedNotLaunched;
      return;
    }
    coverage := UnknownCoverage;
    if review.Some? {
      match review.value.coverage {
        case PreparedBy(_) => coverage := PreparedReviewed;
        case NotPreparedBy(_) => coverage := NotPrepared;
        case NotStated =>
      }
    }
  }

  method FindVerdict(idx: Index, order: Order, p: Pair, receipt: string) returns (verdict: Option<Record>)
    ensures verdict == CurrentVerdict(order, TrustedVerdicts(idx, p, receipt, idx.verdicts))
  {
    var candidates := CollectVerdicts(idx, p, receipt);
    verdict := None;
    if |candidates| == 1 {
      verdict := Some(candidates[0].record);
    } else if |candidates| > 1 && order.PersistenceSequence? {
      verdict := Some(Latest(candidates).record);
    }
  }

  method FindClaim(idx: Index, p: Pair, source: Record) returns (claim: Option<Record>)
    ensures claim == FirstClaim(idx, p, source, idx.receipts)
  {
    claim := None;
    for i := 0 to |idx.receipts|
      invariant claim.None?
      invariant FirstClaim(idx, p, source, idx.receipts[i..]) == FirstClaim(idx, p, source, idx.receipts)
    {
      var c := idx.receipts[i];
      assert idx.receipts[i..][0] == c && idx.receipts[i..][1..] == idx.receipts[i + 1..];
      if !IsCandidate(p, c) || c.scope != p.repo || c.payload.spawn != p.consumerGeneration {
        continue;
      }
      var check := CheckEvidence(c.payload.evidence, idx.byId, idx.rejected, p.repo);
      if check != Resolved || c.createdAt.None? {
        continue;
      }
      if source.createdAt.Some? && source.createdAt.value > c.createdAt.value {
        continue;
      }
      return Some(c);
    }
  }

  method CollectVerdicts(idx: Index, p: Pair, receipt: string) returns (candidates: seq<Placed>)
    ensures candidates == TrustedVerdicts(idx, p, receipt, idx.verdicts)
  {
    candidates := [];
    for i := 0 to |idx.verdicts|
      invariant candidates == TrustedVerdicts(idx, p, receipt, idx.verdicts[..i])
    {
      assert idx.verdicts[..i + 1][..i] == idx.verdicts[..i];
      var v := idx.verdicts[i];
      if v.record.payload.receipt != receipt || v.record.scope != p.repo {
        continue;
      }
      var check := CheckEvidence(v.record.payload.evidence, idx.byId, idx.rejected, p.repo);
      if check == Resolved {
        candidates := candidates + [v];
      }
    }
    assert idx.verdicts[..|idx.verdicts|] == idx.verdicts;
  }
}
