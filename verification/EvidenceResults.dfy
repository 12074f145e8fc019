/** What the pair results can be trusted for: verdicts follow persistence order,
    every pair lands in one place, the discovery counts add up, and credited
    author exits are real. */
module EvidenceResults {
  import opened Basics
  import opened EvidenceRecords
  import opened StableSort
  import opened TupleCapture
  import opened EvidenceIndex
  import opened EvidenceReport
  import opened EvidenceMeaning

  // ----- the current verdict ----------------------------------------------------------

  lemma {:induction false} TrustedMembers(idx: Index, p: Pair, receipt: string, verdicts: seq<Placed>)
    ensures forall v :: v in TrustedVerdicts(idx, p, receipt, verdicts) <==>
            v in verdicts && Trusted(idx, p, receipt, v.record)
  {
    hide Trusted;
    if verdicts != [] {
      var n := |verdicts| - 1;
      TrustedMembers(idx, p, receipt, verdicts[..n]);
      assert verdicts == verdicts[..n] + [verdicts[n]];
    }
  }

  /** A captured verdict of the operator on this receipt, in the pair's repository,
      on resolved evidence. */
  ghost predicate MayDecide(scope: Scope, records: seq<Record>, p: Pair, receipt: string, t: Record) {
    && t in records && VerdictRecord(scope, t) && t.payload.receipt == receipt && t.scope == p.repo
    && Check(t.payload.evidence, IndexOf(scope, records).byId, IndexOf(scope, records).rejected, p.repo) == Resolved
  }

  lemma CandidatesMean(scope: Scope, records: seq<Record>, p: Pair, receipt: string)
    ensures var idx := IndexOf(scope, records);
            forall v :: v in TrustedVerdicts(idx, p, receipt, idx.verdicts) <==>
              v.position < |records| && records[v.position] == v.record
                  && MayDecide(scope, records, p, receipt, v.record)
  {
    hide IndexOf, VerdictRecord, Check, TrustedVerdicts;
    var idx := IndexOf(scope, records);
    TablesMean(scope, records);
    TrustedMembers(idx, p, receipt, idx.verdicts);
  }

  /** Under an accepted order claim the verdict that stands may decide, and no
      verdict that may decide was persisted after it, ties broken by id; there is
      none only if none may. */
  lemma VerdictIsLatest(capture: Capture, scope: Scope, p: Pair, receipt: string)
    requires OrderSound(capture) && capture.order.PersistenceSequence?
    ensures var records := Merged(capture);
            var idx := IndexOf(scope, records);
            var current := CurrentVerdict(capture.order, TrustedVerdicts(idx, p, receipt, idx.verdicts));
            && (current.None? ==> forall t :: t in records ==> !MayDecide(scope, records, p, receipt, t))
            && (current.Some? ==>
                  && MayDecide(scope, records, p, receipt, current.value)
                  && forall t :: t in records && MayDecide(scope, records, p, receipt, t) ==>
                       !PersistedBefore(current.value, t))
  {
    hide MayDecide, IndexOf, Merged, TrustedVerdicts;
    var records := Merged(capture);
    var idx := IndexOf(scope, records);
    var candidates := TrustedVerdicts(idx, p, receipt, idx.verdicts);
    AcceptedOrderIsPersistence(capture);
    CandidatesMean(scope, records, p, receipt);
    forall t | t in records && MayDecide(scope, records, p, receipt, t)
      ensures exists v :: v in candidates && v.record == t
    {
      var k :| 0 <= k < |records| && records[k] == t;
      assert Placed(k, t) in candidates;
    }
    if candidates != [] {
      var v := if |candidates| == 1 then candidates[0] else Latest(candidates);
      assert v in candidates;
      forall c | c in candidates
        ensures !PersistedBefore(v.record, c.record)
      {
        assert c.position <= v.position;
        LessIrreflexive(SortId(v.record));
      }
    }
  }

  /** Under unknown order two or more verdicts that may decide stand for none, and
      the pair is never an effect. */
  lemma UnknownOrderDecidesNothing(scope: Scope, records: seq<Record>, p: Pair, review: Option<Review>, i: nat, j: nat)
    requires p.source in IndexOf(scope, records).byId && i < j < |records|
    ensures var r := Evaluate(IndexOf(scope, records), UnknownOrder, p, review);
            && r.claim.Some?
            && MayDecide(scope, records, p, IdOf(r.claim.value), records[i])
            && MayDecide(scope, records, p, IdOf(r.claim.value), records[j]) ==>
              r.verdict.None? && !r.verifiedEffect && !r.countsAsEffect
  {
    hide MayDecide, IndexOf, TrustedVerdicts, Check, FirstClaim, AuthorExited, Launched, CoverageOf;
    var idx := IndexOf(scope, records);
    var r := Evaluate(idx, UnknownOrder, p, review);
    if r.claim.Some? && MayDecide(scope, records, p, IdOf(r.claim.value), records[i])
       && MayDecide(scope, records, p, IdOf(r.claim.value), records[j]) {
      CandidatesMean(scope, records, p, RecordId(r.claim.value));
      var candidates := TrustedVerdicts(idx, p, RecordId(r.claim.value), idx.verdicts);
      assert Placed(i, records[i]) in candidates && Placed(j, records[j]) in candidates;
      TwoCandidates(candidates, Placed(i, records[i]), Placed(j, records[j]));
    }
  }

  ghost predicate PositionsAscend(verdicts: seq<Placed>) {
    forall i, j :: 0 <= i < j < |verdicts| ==> verdicts[i].position < verdicts[j].position
  }

  lemma {:induction false} VerdictsAscend(scope: Scope, records: seq<Record>)
    ensures PositionsAscend(IndexOf(scope, records).verdicts)
  {
    hide IsVerdict, LaunchRows, IsRejected, Prepare, IsExit, IsUsage, IsExposure, IsOpen, IsReceipt;
    if records != [] {
      var n := |records| - 1;
      VerdictsAscend(scope, records[..n]);
      VerdictMembers(scope, records[..n]);
      var before := IndexOf(scope, records[..n]).verdicts;
      forall i | 0 <= i < |before|
        ensures before[i].position < n
      {
        assert before[i] in before;
      }
    }
  }

  lemma {:induction false} TrustedAscend(idx: Index, p: Pair, receipt: string, verdicts: seq<Placed>)
    requires PositionsAscend(verdicts)
    ensures PositionsAscend(TrustedVerdicts(idx, p, receipt, verdicts))
  {
    hide Trusted;
    if verdicts != [] {
      var n := |verdicts| - 1;
      TrustedAscend(idx, p, receipt, verdicts[..n]);
      TrustedMembers(idx, p, receipt, verdicts[..n]);
      var before := TrustedVerdicts(idx, p, receipt, verdicts[..n]);
      forall i | 0 <= i < |before|
        ensures before[i].position < verdicts[n].position
      {
        assert before[i] in verdicts[..n];
      }
    }
  }

  /** A verdict that alone may decide stands under any order, known or not. */
  lemma LoneVerdictStands(scope: Scope, records: seq<Record>, order: Order, p: Pair, receipt: string, i: nat)
    requires i < |records| && MayDecide(scope, records, p, receipt, records[i])
    requires forall j :: 0 <= j < |records| && j != i ==> !MayDecide(scope, records, p, receipt, records[j])
    ensures var idx := IndexOf(scope, records);
            CurrentVerdict(order, TrustedVerdicts(idx, p, receipt, idx.verdicts)) == Some(records[i])
  {
    hide MayDecide, IndexOf, TrustedVerdicts;
    var idx := IndexOf(scope, records);
    var candidates := TrustedVerdicts(idx, p, receipt, idx.verdicts);
    CandidatesMean(scope, records, p, receipt);
    VerdictsAscend(scope, records);
    TrustedAscend(idx, p, receipt, idx.verdicts);
    assert Placed(i, records[i]) in candidates;
    assert |candidates| >= 2 ==> candidates[0].position < candidates[1].position;
    forall k | 0 <= k < |candidates|
      ensures candidates[k] == Placed(i, records[i])
    {
      assert candidates[k] in candidates;
    }
  }

  lemma TwoCandidates(candidates: seq<Placed>, a: Placed, b: Placed)
    requires a in candidates && b in candidates && a != b
    ensures |candidates| >= 2
  {
    var i :| 0 <= i < |candidates| && candidates[i] == a;
    var j :| 0 <= j < |candidates| && candidates[j] == b;
  }

  // ----- every pair lands in exactly one place -------------------------------------------

  lemma {:induction false} EvaluatedAre(idx: Index, order: Order, reviews: Reviews, pairs: seq<Pair>, n: nat)
    requires n <= |pairs|
    ensures forall r :: r in EvaluatedOf(idx, order, reviews, pairs, n) ==>
              exists k :: 0 <= k < n && EvaluatedAt(idx, order, reviews, pairs, k, r)
    ensures forall k :: 0 <= k < n && ExclusionAt(idx, pairs, k).None? ==>
              Evaluate(idx, order, pairs[k], ReviewOf(reviews, pairs[k])) in EvaluatedOf(idx, order, reviews, pairs, n)
  {
    hide Evaluate, ExclusionAt;
    if n > 0 {
      EvaluatedAre(idx, order, reviews, pairs, n - 1);
      if ExclusionAt(idx, pairs, n - 1).None? {
        assert EvaluatedAt(idx, order, reviews, pairs, n - 1,
            Evaluate(idx, order, pairs[n - 1], ReviewOf(reviews, pairs[n - 1])));
      }
    }
  }

  predicate EvaluatedAt(idx: Index, order: Order, reviews: Reviews, pairs: seq<Pair>, k: nat, r: PairResult) {
    k < |pairs| && ExclusionAt(idx, pairs, k).None? && r == Evaluate(idx, order, pairs[k], ReviewOf(reviews, pairs[k]))
  }

  /** The same source for the same generation of the same task and repository. */
  predicate SameOpportunity(p: Pair, q: Pair) {
    && p.repo == q.repo && p.source == q.source
    && p.consumerTask == q.consumerTask && p.consumerGeneration == q.consumerGeneration
  }

  ghost predicate DistinctKeys(results: seq<PairResult>) {
    forall i, j :: 0 <= i < j < |results| ==> !SameOpportunity(results[i].pair, results[j].pair)
  }

  lemma SeenMeans(pairs: seq<Pair>, n: nat)
    requires n < |pairs|
    ensures SeenBefore(pairs, n, KeyOf(pairs[n])) <==> exists k :: 0 <= k < n && SameOpportunity(pairs[k], pairs[n])
  {
  }

  /** Pair `k` is left out for this reason: a repeated opportunity first. */
  predicate ExcludedFor(idx: Index, pairs: seq<Pair>, k: nat, e: Excluded) {
    && k < |pairs| && e.pair == pairs[k].id
    && if exists j :: 0 <= j < k && SameOpportunity(pairs[j], pairs[k]) then e.reason == Duplicate
       else Exclusion(idx, pairs[k]) == Some(e.reason)
  }

  /** The excluded list: for each pair left out, its id and reason. */
  lemma {:induction false} ExcludedAre(idx: Index, pairs: seq<Pair>, n: nat)
    requires n <= |pairs|
    ensures forall e :: e in ExcludedOf(idx, pairs, n) <==> exists k :: 0 <= k < n && ExcludedFor(idx, pairs, k, e)
  {
    hide Exclusion, SameOpportunity, SeenBefore;
    if n > 0 {
      ExcludedAre(idx, pairs, n - 1);
      SeenMeans(pairs, n - 1);
      var before := ExcludedOf(idx, pairs, n - 1);
      var m := n - 1;
      var reason := ExclusionAt(idx, pairs, m);
      forall e: Excluded
        ensures ExcludedFor(idx, pairs, m, e) <==> reason.Some? && e == Excluded(pairs[m].id, reason.value)
      {
      }
      var now := ExcludedOf(idx, pairs, n);
      assert forall e :: e in now <==> e in before || ExcludedFor(idx, pairs, m, e);
      forall e | e in now
        ensures exists k :: 0 <= k < n && ExcludedFor(idx, pairs, k, e)
      {
        if e in before {
          var k :| 0 <= k < m && ExcludedFor(idx, pairs, k, e);
        } else {
          assert ExcludedFor(idx, pairs, m, e);
        }
      }
      forall e, k | 0 <= k < n && ExcludedFor(idx, pairs, k, e)
        ensures e in now
      {
        assert k < m ==> e in before;
      }
    }
  }

  /** No opportunity is evaluated twice. */
  lemma {:induction false} KeysDiffer(idx: Index, order: Order, reviews: Reviews, pairs: seq<Pair>, n: nat)
    requires n <= |pairs|
    ensures DistinctKeys(EvaluatedOf(idx, order, reviews, pairs, n))
  {
    hide Evaluate, ExclusionAt;
    if n > 0 {
      var before := EvaluatedOf(idx, order, reviews, pairs, n - 1);
      KeysDiffer(idx, order, reviews, pairs, n - 1);
      EvaluatedAre(idx, order, reviews, pairs, n - 1);
      if ExclusionAt(idx, pairs, n - 1).None? {
        EvaluateKeepsPair(idx, order, pairs[n - 1], ReviewOf(reviews, pairs[n - 1]));
        forall i | 0 <= i < |before|
          ensures !SameOpportunity(before[i].pair, pairs[n - 1])
        {
          assert before[i] in before;
          var k :| 0 <= k < n - 1 && EvaluatedAt(idx, order, reviews, pairs, k, before[i]);
          EvaluateKeepsPair(idx, order, pairs[k], ReviewOf(reviews, pairs[k]));
          assert !SeenBefore(pairs, n - 1, KeyOf(pairs[n - 1]));
        }
        var r := Evaluate(idx, order, pairs[n - 1], ReviewOf(reviews, pairs[n - 1]));
        assert EvaluatedOf(idx, order, reviews, pairs, n) == before + [r] && r.pair == pairs[n - 1];
      }
    }
  }

  function ExcludedIds(excluded: seq<Excluded>): multiset<string> {
    if excluded == [] then multiset{}
    else ExcludedIds(excluded[..|excluded| - 1]) + multiset{excluded[|excluded| - 1].pair}
  }

  function EvaluatedIds(evaluated: seq<PairResult>): multiset<string> {
    if evaluated == [] then multiset{}
    else EvaluatedIds(evaluated[..|evaluated| - 1]) + multiset{evaluated[|evaluated| - 1].pair.id}
  }

  function PairIds(pairs: seq<Pair>): multiset<string> {
    if pairs == [] then multiset{} else PairIds(pairs[..|pairs| - 1]) + multiset{pairs[|pairs| - 1].id}
  }

  lemma {:induction false} ExcludedHas(idx: Index, pairs: seq<Pair>, n: nat)
    requires n < |pairs|
    ensures var before, now := ExcludedIds(ExcludedOf(idx, pairs, n)), ExcludedIds(ExcludedOf(idx, pairs, n + 1));
            now == if ExclusionAt(idx, pairs, n).Some? then before + multiset{pairs[n].id} else before
  {
    hide ExclusionAt;
    var e := ExcludedOf(idx, pairs, n + 1);
    if ExclusionAt(idx, pairs, n).Some? {
      assert e[..|e| - 1] == ExcludedOf(idx, pairs, n);
    }
  }

  lemma {:induction false} EvaluatedHas(idx: Index, order: Order, reviews: Reviews, pairs: seq<Pair>, n: nat)
    requires n < |pairs|
    ensures var before := EvaluatedIds(EvaluatedOf(idx, order, reviews, pairs, n));
            var now := EvaluatedIds(EvaluatedOf(idx, order, reviews, pairs, n + 1));
            now == if ExclusionAt(idx, pairs, n).None? then before + multiset{pairs[n].id} else before
  {
    hide ExclusionAt, Evaluate;
    var v := EvaluatedOf(idx, order, reviews, pairs, n + 1);
    if ExclusionAt(idx, pairs, n).None? {
      EvaluateKeepsPair(idx, order, pairs[n], ReviewOf(reviews, pairs[n]));
      assert v[..|v| - 1] == EvaluatedOf(idx, order, reviews, pairs, n);
    }
  }

  /** Every enrolled pair is either excluded, with one reason, or evaluated. */
  lemma {:induction false} PairsPartition(idx: Index, order: Order, reviews: Reviews, pairs: seq<Pair>, n: nat)
    requires n <= |pairs|
    ensures ExcludedIds(ExcludedOf(idx, pairs, n)) + EvaluatedIds(EvaluatedOf(idx, order, reviews, pairs, n))
            == PairIds(pairs[..n])
  {
    hide ExcludedIds, EvaluatedIds, PairIds, ExcludedOf, EvaluatedOf;
    if n == 0 {
      NoneLands(idx, order, reviews, pairs);
    } else {
      PairsPartition(idx, order, reviews, pairs, n - 1);
      NextLands(idx, order, reviews, pairs, n - 1);
    }
  }

  lemma NoneLands(idx: Index, order: Order, reviews: Reviews, pairs: seq<Pair>)
    ensures ExcludedIds(ExcludedOf(idx, pairs, 0)) + EvaluatedIds(EvaluatedOf(idx, order, reviews, pairs, 0))
            == PairIds(pairs[..0])
  {
  }

  lemma NextLands(idx: Index, order: Order, reviews: Reviews, pairs: seq<Pair>, n: nat)
    requires n < |pairs|
    requires ExcludedIds(ExcludedOf(idx, pairs, n)) + EvaluatedIds(EvaluatedOf(idx, order, reviews, pairs, n))
             == PairIds(pairs[..n])
    ensures ExcludedIds(ExcludedOf(idx, pairs, n + 1)) + EvaluatedIds(EvaluatedOf(idx, order, reviews, pairs, n + 1))
            == PairIds(pairs[..n + 1])
  {
    hide ExcludedIds, EvaluatedIds, ExcludedOf, EvaluatedOf, ExclusionAt;
    ExcludedHas(idx, pairs, n);
    EvaluatedHas(idx, order, reviews, pairs, n);
    assert pairs[..n + 1][..n] == pairs[..n];
    MoveOne(ExcludedIds(ExcludedOf(idx, pairs, n)), EvaluatedIds(EvaluatedOf(idx, order, reviews, pairs, n)),
        multiset{pairs[n].id});
  }

  lemma MoveOne(a: multiset<string>, b: multiset<string>, x: multiset<string>)
    ensures (a + x) + b == (a + b) + x && a + (b + x) == (a + b) + x
  {
  }

  lemma EvaluateKeepsPair(idx: Index, order: Order, p: Pair, review: Option<Review>)
    requires p.source in idx.byId
    ensures Evaluate(idx, order, p, review).pair == p
  {
  }

  // ----- the discovery counts ------------------------------------------------------------------

  datatype Discovery = Discovery(
    eligible: nat,
    known: nat,
    prepared: nat,
    preparedNative: nat,
    preparedReviewed: nat,
    notPrepared: nat,
    unknown: nat,
    notLaunched: nat,
    rate: Option<real>)

  function CountCovered(evaluated: seq<PairResult>, c: Coverage): nat {
    if evaluated == [] then 0
    else CountCovered(evaluated[..|evaluated| - 1], c) + if evaluated[|evaluated| - 1].coverage == c then 1 else 0
  }

  method Count(evaluated: seq<PairResult>, c: Coverage) returns (n: nat)
    ensures n == CountCovered(evaluated, c)
  {
    n := 0;
    for i := 0 to |evaluated|
      invariant n == CountCovered(evaluated[..i], c)
    {
      assert evaluated[..i + 1][..i] == evaluated[..i];
      if evaluated[i].coverage == c {
        n := n + 1;
      }
    }
    assert evaluated[..|evaluated|] == evaluated;
  }

  lemma {:induction false} CoverageSplits(evaluated: seq<PairResult>)
    ensures CountCovered(evaluated, PreparedNative) + CountCovered(evaluated, PreparedReviewed)
            + CountCovered(evaluated, NotPrepared) + CountCovered(evaluated, UnknownCoverage)
            + CountCovered(evaluated, PreparedNotLaunched) == |evaluated|
  {
    if evaluated != [] {
      CoverageSplits(evaluated[..|evaluated| - 1]);
    }
  }

  lemma Fraction(part: nat, whole: nat)
    requires part <= whole && whole > 0
    ensures 0.0 <= part as real / whole as real <= 1.0
    ensures part as real / whole as real * whole as real == part as real
  {
  }

  /** The discovery block: its five classes add up to the eligible pairs, and its
      rate is a fraction of the pairs with known coverage, or absent. */
  predicate IsDiscovery(d: Discovery, evaluated: seq<PairResult>) {
    && d.eligible == |evaluated| == d.preparedNative + d.preparedReviewed + d.notPrepared + d.unknown + d.notLaunched
    && d.preparedNative == CountCovered(evaluated, PreparedNative)
    && d.preparedReviewed == CountCovered(evaluated, PreparedReviewed)
    && d.notPrepared == CountCovered(evaluated, NotPrepared) && d.unknown == CountCovered(evaluated, UnknownCoverage)
    && d.notLaunched == CountCovered(evaluated, PreparedNotLaunched)
    && d.prepared == d.preparedNative + d.preparedReviewed
    && d.known == d.eligible - d.unknown - d.notLaunched
    && (d.rate.None? <==> d.known == 0)
    && (d.rate.Some? ==> 0.0 <= d.rate.value <= 1.0 && d.rate.value * d.known as real == d.prepared as real)
  }

  method Discover(evaluated: seq<PairResult>) returns (d: Discovery)
    ensures IsDiscovery(d, evaluated)
  {
    hide CountCovered;
    var native := Count(evaluated, PreparedNative);
    var reviewed := Count(evaluated, PreparedReviewed);
    var not := Count(evaluated, NotPrepared);
    var unknown := Count(evaluated, UnknownCoverage);
    var unlaunched := Count(evaluated, PreparedNotLaunched);
    CoverageSplits(evaluated);
    var prepared := native + reviewed;
    var known := prepared + not;
    var rate: Option<real> := None;
    if known > 0 {
      Fraction(prepared, known);
      rate := Some(prepared as real / known as real);
    }
    d := Discovery(|evaluated|, known, prepared, native, reviewed, not, unknown, unlaunched, rate);
  }

  // ----- author exit --------------------------------------------------------------------------------

  /** A captured exit of the source's author, in the pair's repository and the
      source's task, by the same agent where both name one, fresh, not after the
      claim, after which no record of that generation under another or an unknown
      session was captured before it. */
  ghost predicate ExitProved(scope: Scope, records: seq<Record>, e: Record, repo: string, source: Record,
      claimAt: Time) {
    && e in records && ExitOfLaunch(scope, e) && e.scope == repo
    && NotBlank(source.payload.task) && e.payload.task == source.payload.task
    && source.payload.spawn != "" && e.payload.spawn == source.payload.spawn
    && (source.payload.agent == "" || e.payload.agent == "" || e.payload.agent == source.payload.agent)
    && (e.payload.staleSession.None? || !e.payload.staleSession.value)
    && e.payload.exitedAt.time <= claimAt
    && forall t, l :: t in records && ProvesLaunch(scope, t, l) ==>
         !TakesOver(l, repo, source.payload.spawn, e.payload.session, e.payload.exitedAt.time, claimAt)
  }

  /** Credit for author exit rests on such a record. */
  lemma AuthorExitIsProved(scope: Scope, records: seq<Record>, evidence: string, p: Pair, source: Record,
      claimAt: Option<Time>)
    requires AuthorExited(IndexOf(scope, records), evidence, p, source, claimAt)
    ensures claimAt.Some?
    ensures exists e :: ExitProved(scope, records, e, p.repo, source, claimAt.value) && IdOf(e) == evidence
  {
    hide IndexOf, ExitOfLaunch, ProvesLaunch, AuthorExited, NotBlank, FromDaemon, TakesOver;
    var idx := IndexOf(scope, records);
    AuthorExitMeans(idx, evidence, p, source, claimAt);
    ExitTableMeans(scope, records);
    TablesMean(scope, records);
    var row := FindExit(idx.exits, evidence).value;
    var e :| e in records && ExitOfLaunch(scope, e) && IsRowOf(row, e);
    ExitHasTime(scope, e);
    assert ExitProved(scope, records, e, p.repo, source, claimAt.value);
  }

  lemma ExitHasTime(scope: Scope, e: Record)
    requires ExitOfLaunch(scope, e)
    ensures e.payload.exitedAt.At?
  {
  }

  /** More launch rows can withdraw the credit, never grant it. */
  lemma LaunchesOnlyWithdraw(idx: Index, more: seq<LaunchRow>, evidence: string, p: Pair, source: Record,
      claimAt: Option<Time>)
    requires forall l :: l in idx.launches ==> l in more
    ensures AuthorExited(idx.(launches := more), evidence, p, source, claimAt) ==>
            AuthorExited(idx, evidence, p, source, claimAt)
  {
    if AuthorExited(idx.(launches := more), evidence, p, source, claimAt) {
      var exit := FindExit(idx.exits, evidence).value;
      forall i | 0 <= i < |idx.launches|
        ensures !IsRelaunch(idx.launches[i], p.repo, source.payload.spawn, exit.session, exit.exitedAt.value,
                            claimAt.value)
      {
        assert idx.launches[i] in more;
        var j :| 0 <= j < |more| && more[j] == idx.launches[i];
      }
    }
  }
}
