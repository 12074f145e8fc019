/** The frozen manifest of `bbs_report.rs` and the pairs a report is about: those
    the manifest predeclares and those the reviews of a live batch mint. */
module Enrollment {
  import opened Basics
  import opened EvidenceRecords
  import opened StableSort
  import opened EvidenceIndex
  import opened EvidenceReport
  import opened EvidenceMeaning

  const SCHEMA_VERSION := 1

  datatype Batch = Batch(id: string, arm: string, repo: string)

  /** A consumer task frozen into a batch. */
  datatype FrozenTask = FrozenTask(task: string, repo: string, batch: string)

  datatype Manifest = Manifest(
    schemaVersion: nat,
    experimentId: string,
    scope: Scope,
    batches: seq<Batch>,
    consumerTasks: seq<FrozenTask>,
    eligiblePairs: seq<Pair>)

  /** A pair a review mints; its id is the review's own. */
  datatype Declaration = Declaration(
    source: string, consumerTask: string, consumerGeneration: string, repo: string, batch: string)

  datatype Entry = Entry(pair: string, declares: Option<Declaration>, review: Review)

  datatype Refusal =
    | DuplicateReview(pair: string)
    | MutatesPredeclared(pair: string)
    | UnknownPair(pair: string)
    | BatchNotFrozen(pair: string)
    | TaskNotFrozen(pair: string)
    | Incomplete(pair: string)

  // ----- a valid manifest -----------------------------------------------------------------

  predicate HasBatch(batches: seq<Batch>, id: string, repo: string) {
    exists b :: b in batches && b.id == id && b.repo == repo
  }

  predicate BatchOk(scope: Scope, b: Batch) {
    !IsBlank(b.id) && !IsBlank(b.arm) && !IsBlank(b.repo) && InScope(scope, b.repo)
  }

  predicate TaskOk(batches: seq<Batch>, c: FrozenTask) {
    !IsBlank(c.task) && !IsBlank(c.repo) && !IsBlank(c.batch) && HasBatch(batches, c.batch, c.repo)
  }

  predicate PairOk(m: Manifest, p: Pair) {
    && !IsBlank(p.id) && HasBatch(m.batches, p.batch, p.repo) && InScope(m.scope, p.repo)
    && !IsBlank(p.source) && !IsBlank(p.consumerTask) && !IsBlank(p.consumerGeneration) && !IsBlank(p.repo)
  }

  predicate BatchIdsDiffer(batches: seq<Batch>) {
    forall i, j :: 0 <= i < j < |batches| ==> batches[i].id != batches[j].id
  }

  predicate TasksDiffer(tasks: seq<FrozenTask>) {
    forall i, j :: 0 <= i < j < |tasks| ==> tasks[i] != tasks[j]
  }

  predicate IdsDiffer(pairs: seq<Pair>) {
    forall i, j :: 0 <= i < j < |pairs| ==> pairs[i].id != pairs[j].id
  }

  predicate WindowOk(w: Window) {
    w.since.Some? && w.until.Some? ==> w.since.value <= w.until.value
  }

  predicate BatchesOk(m: Manifest, n: nat) {
    n <= |m.batches| && BatchIdsDiffer(m.batches[..n]) && forall i :: 0 <= i < n ==> BatchOk(m.scope, m.batches[i])
  }

  predicate TasksOk(m: Manifest, n: nat) {
    n <= |m.consumerTasks| && TasksDiffer(m.consumerTasks[..n])
    && forall i :: 0 <= i < n ==> TaskOk(m.batches, m.consumerTasks[i])
  }

  predicate PairsOk(m: Manifest, n: nat) {
    n <= |m.eligiblePairs| && IdsDiffer(m.eligiblePairs[..n]) && forall i :: 0 <= i < n ==>
        PairOk(m, m.eligiblePairs[i])
  }

  /** What `validate_manifest` promises of a manifest it accepts. */
  predicate ManifestOk(m: Manifest) {
    && m.schemaVersion == SCHEMA_VERSION && !IsBlank(m.experimentId) && m.batches != [] && WindowOk(m.scope.window)
    && BatchesOk(m, |m.batches|) && TasksOk(m, |m.consumerTasks|) && PairsOk(m, |m.eligiblePairs|)
  }

  predicate DeclaresBatch(m: Manifest, id: string, repo: string) {
    exists b :: b in m.batches && b.id == id && b.repo == repo
  }

  predicate Allows(m: Manifest, repo: string) {
    m.scope.repos == [] || repo in m.scope.repos
  }

  /** A manifest in order, said in its fields. */
  predicate WellFormed(m: Manifest) {
    && m.schemaVersion == 1 && NotBlank(m.experimentId) && m.batches != []
    && (m.scope.window.since.Some? && m.scope.window.until.Some? ==>
          m.scope.window.since.value <= m.scope.window.until.value)
    && (forall b :: b in m.batches ==> NotBlank(b.id) && NotBlank(b.arm) && NotBlank(b.repo) && Allows(m, b.repo))
    && (forall i, j :: 0 <= i < j < |m.batches| ==> m.batches[i].id != m.batches[j].id)
    && (forall c :: c in m.consumerTasks ==>
          NotBlank(c.task) && NotBlank(c.repo) && NotBlank(c.batch) && DeclaresBatch(m, c.batch, c.repo))
    && (forall i, j :: 0 <= i < j < |m.consumerTasks| ==> m.consumerTasks[i] != m.consumerTasks[j])
    && (forall p :: p in m.eligiblePairs ==>
          && NotBlank(p.id) && NotBlank(p.source) && NotBlank(p.consumerTask) && NotBlank(p.consumerGeneration)
          && NotBlank(p.repo) && DeclaresBatch(m, p.batch, p.repo) && Allows(m, p.repo))
    && (forall i, j :: 0 <= i < j < |m.eligiblePairs| ==> m.eligiblePairs[i].id != m.eligiblePairs[j].id)
  }

  lemma BlanksMean()
    ensures forall s :: IsBlank(s) <==> !NotBlank(s)
  {
    forall s
      ensures IsBlank(s) <==> !NotBlank(s)
    {
      BlankMeans(s);
    }
  }

  lemma BatchesMean(m: Manifest)
    ensures BatchesOk(m, |m.batches|) <==>
              && (forall b :: b in m.batches ==>
                 NotBlank(b.id) && NotBlank(b.arm) && NotBlank(b.repo) && Allows(m, b.repo))
              && (forall i, j :: 0 <= i < j < |m.batches| ==> m.batches[i].id != m.batches[j].id)
  {
    hide IsBlank, NotBlank;
    BlanksMean();
    assert m.batches[..|m.batches|] == m.batches;
    forall b
      ensures BatchOk(m.scope, b) <==> NotBlank(b.id) && NotBlank(b.arm) && NotBlank(b.repo) && Allows(m, b.repo)
    {
    }
    hide BatchOk, Allows;
    assert forall b :: b in m.batches <==> exists i :: 0 <= i < |m.batches| && m.batches[i] == b;
  }

  lemma TasksMean(m: Manifest)
    ensures TasksOk(m, |m.consumerTasks|) <==>
              && (forall c :: c in m.consumerTasks ==>
                    NotBlank(c.task) && NotBlank(c.repo) && NotBlank(c.batch) && DeclaresBatch(m, c.batch, c.repo))
              && (forall i, j :: 0 <= i < j < |m.consumerTasks| ==> m.consumerTasks[i] != m.consumerTasks[j])
  {
    hide IsBlank, NotBlank;
    BlanksMean();
    assert m.consumerTasks[..|m.consumerTasks|] == m.consumerTasks;
    forall c
      ensures TaskOk(m.batches, c) <==>
                NotBlank(c.task) && NotBlank(c.repo) && NotBlank(c.batch) && DeclaresBatch(m, c.batch, c.repo)
    {
    }
    hide TaskOk, DeclaresBatch;
    assert forall c :: c in m.consumerTasks <==> exists i :: 0 <= i < |m.consumerTasks| && m.consumerTasks[i] == c;
  }

  lemma PairsMean(m: Manifest)
    ensures PairsOk(m, |m.eligiblePairs|) <==>
              && (forall p :: p in m.eligiblePairs ==>
                    && NotBlank(p.id) && NotBlank(p.source) && NotBlank(p.consumerTask)
                       && NotBlank(p.consumerGeneration)
                    && NotBlank(p.repo) && DeclaresBatch(m, p.batch, p.repo) && Allows(m, p.repo))
              && (forall i, j :: 0 <= i < j < |m.eligiblePairs| ==> m.eligiblePairs[i].id != m.eligiblePairs[j].id)
  {
    hide IsBlank, NotBlank;
    BlanksMean();
    assert m.eligiblePairs[..|m.eligiblePairs|] == m.eligiblePairs;
    forall p
      ensures PairOk(m, p) <==>
                && NotBlank(p.id) && NotBlank(p.source) && NotBlank(p.consumerTask) && NotBlank(p.consumerGeneration)
                && NotBlank(p.repo) && DeclaresBatch(m, p.batch, p.repo) && Allows(m, p.repo)
    {
    }
    hide PairOk, DeclaresBatch, Allows;
    assert forall p :: p in m.eligiblePairs <==> exists i :: 0 <= i < |m.eligiblePairs| && m.eligiblePairs[i] == p;
  }

  /** The manifests accepted are exactly those in order. */
  lemma ManifestMeans(m: Manifest)
    ensures ManifestOk(m) <==> WellFormed(m)
  {
    hide BatchesOk, TasksOk, PairsOk, IsBlank, NotBlank, DeclaresBatch, Allows;
    BatchesMean(m);
    TasksMean(m);
    PairsMean(m);
    BlankMeans(m.experimentId);
  }

  method ValidateManifest(m: Manifest) returns (ok: bool)
    ensures ok <==> ManifestOk(m)
  {
    hide TasksOk, PairsOk;
    if m.schemaVersion != SCHEMA_VERSION || IsBlank(m.experimentId) || m.batches == [] || !WindowOk(m.scope.window) {
      return false;
    }
    var batchRepos: map<string, string>;
    ok, batchRepos := ValidateBatches(m);
    if !ok {
      return false;
    }
    ok := ValidateTasks(m);
    if !ok {
      return false;
    }
    ok := ValidatePairs(m, batchRepos);
  }

  /** `batchRepos` maps a batch id to the repository of its batch. */
  ghost predicate RepoTable(batchRepos: map<string, string>, batches: seq<Batch>) {
    forall id, repo :: HasBatch(batches, id, repo) <==> id in batchRepos && batchRepos[id] == repo
  }

  method ValidateBatches(m: Manifest) returns (ok: bool, batchRepos: map<string, string>)
    ensures ok <==> BatchesOk(m, |m.batches|)
    ensures ok ==> RepoTable(batchRepos, m.batches)
  {
    batchRepos := map[];
    for n := 0 to |m.batches|
      invariant BatchesOk(m, n)
      invariant forall id :: id in batchRepos <==> exists k :: 0 <= k < n && m.batches[k].id == id
      invariant RepoTable(batchRepos, m.batches[..n])
    {
      var b := m.batches[n];
      if !BatchOk(m.scope, b) {
        return false, batchRepos;
      }
      if b.id in batchRepos {
        var k :| 0 <= k < n && m.batches[k].id == b.id;
        assert m.batches[..|m.batches|] == m.batches;
        return false, batchRepos;
      }
      RepoTableGrows(batchRepos, m.batches[..n], b);
      assert m.batches[..n + 1] == m.batches[..n] + [b];
      batchRepos := batchRepos[b.id := b.repo];
    }
    assert m.batches[..|m.batches|] == m.batches;
    ok := true;
  }

  lemma RepoTableGrows(batchRepos: map<string, string>, batches: seq<Batch>, b: Batch)
    requires RepoTable(batchRepos, batches) && b.id !in batchRepos
    ensures RepoTable(batchRepos[b.id := b.repo], batches + [b])
  {
    forall id, repo
      ensures HasBatch(batches + [b], id, repo) <==> HasBatch(batches, id, repo) || (b.id == id && b.repo == repo)
    {
      assert forall x :: x in batches + [b] <==> x in batches || x == b;
    }
  }

  method ValidateTasks(m: Manifest) returns (ok: bool)
    ensures ok <==> TasksOk(m, |m.consumerTasks|)
  {
    hide TaskOk;
    var seen: set<FrozenTask> := {};
    for n := 0 to |m.consumerTasks|
      invariant TasksOk(m, n)
      invariant forall c :: c in seen <==> exists k :: 0 <= k < n && m.consumerTasks[k] == c
    {
      var c := m.consumerTasks[n];
      if !TaskOk(m.batches, c) {
        return false;
      }
      if c in seen {
        var k :| 0 <= k < n && m.consumerTasks[k] == c;
        assert m.consumerTasks[..|m.consumerTasks|] == m.consumerTasks;
        return false;
      }
      seen := seen + {c};
    }
    ok := true;
  }

  method ValidatePairs(m: Manifest, batchRepos: map<string, string>) returns (ok: bool)
    requires RepoTable(batchRepos, m.batches)
    ensures ok <==> PairsOk(m, |m.eligiblePairs|)
  {
    hide HasBatch, IsBlank, InScope;
    var seen: set<string> := {};
    for n := 0 to |m.eligiblePairs|
      invariant PairsOk(m, n)
      invariant forall id :: id in seen <==> exists k :: 0 <= k < n && m.eligiblePairs[k].id == id
    {
      var p := m.eligiblePairs[n];
      if IsBlank(p.id) {
        return false;
      }
      if p.id in seen {
        var k :| 0 <= k < n && m.eligiblePairs[k].id == p.id;
        assert m.eligiblePairs[..|m.eligiblePairs|] == m.eligiblePairs;
        return false;
      }
      seen := seen + {p.id};
      if p.batch !in batchRepos || batchRepos[p.batch] != p.repo {
        assert !HasBatch(m.batches, p.batch, p.repo);
        return false;
      }
      if !InScope(m.scope, p.repo) {
        return false;
      }
      if IsBlank(p.source) || IsBlank(p.consumerTask) || IsBlank(p.consumerGeneration) || IsBlank(p.repo) {
        return false;
      }
    }
    ok := true;
  }

  // ----- enrolling pairs ------------------------------------------------------------------------

  predicate Predeclared(m: Manifest, id: string) {
    exists k :: 0 <= k < |m.eligiblePairs| && m.eligiblePairs[k].id == id
  }

  predicate ReviewedBefore(entries: seq<Entry>, n: nat, id: string) {
    exists k :: 0 <= k < n && k < |entries| && entries[k].pair == id
  }

  predicate BindsToScope(m: Manifest, d: Declaration) {
    HasBatch(m.batches, d.batch, d.repo) && FrozenTask(d.consumerTask, d.repo, d.batch) in m.consumerTasks
  }

  predicate Complete(d: Declaration) {
    !IsBlank(d.source) && !IsBlank(d.consumerTask) && !IsBlank(d.consumerGeneration)
  }

  /** A review either adds to a predeclared pair or mints a new one, bound to the
      frozen scope; never both, never neither, and once per pair. */
  predicate EntryOk(m: Manifest, entries: seq<Entry>, n: nat)
    requires n < |entries|
  {
    var e := entries[n];
    && !ReviewedBefore(entries, n, e.pair)
    && (e.declares.None? <==> Predeclared(m, e.pair))
    && (e.declares.Some? ==> BindsToScope(m, e.declares.value) && Complete(e.declares.value))
  }

  predicate EntriesOk(m: Manifest, entries: seq<Entry>, n: nat) {
    n <= |entries| && forall k :: 0 <= k < n ==> EntryOk(m, entries, k)
  }

  /** What a review may say after the reviews before it, in its fields. */
  predicate Permitted(m: Manifest, entries: seq<Entry>, n: nat)
    requires n < |entries|
  {
    var e := entries[n];
    && (forall k :: 0 <= k < n ==> entries[k].pair != e.pair)
    && (e.declares.None? <==> exists p :: p in m.eligiblePairs && p.id == e.pair)
    && (e.declares.Some? ==>
          var d := e.declares.value;
          && DeclaresBatch(m, d.batch, d.repo)
          && (exists c :: c in m.consumerTasks && c.task == d.consumerTask && c.batch == d.batch && c.repo == d.repo)
          && NotBlank(d.source) && NotBlank(d.consumerTask) && NotBlank(d.consumerGeneration))
  }

  /** The reviews accepted are exactly those permitted. */
  lemma EntriesMean(m: Manifest, entries: seq<Entry>)
    ensures EntriesOk(m, entries, |entries|) <==> forall n :: 0 <= n < |entries| ==> Permitted(m, entries, n)
  {
    forall n | 0 <= n < |entries|
      ensures EntryOk(m, entries, n) <==> Permitted(m, entries, n)
    {
      EntryMeans(m, entries, n);
    }
  }

  lemma EntryMeans(m: Manifest, entries: seq<Entry>, n: nat)
    requires n < |entries|
    ensures EntryOk(m, entries, n) <==> Permitted(m, entries, n)
  {
    hide IsBlank, NotBlank;
    var e := entries[n];
    BlanksMean();
    assert Predeclared(m, e.pair) <==> exists p :: p in m.eligiblePairs && p.id == e.pair by {
      assert forall p :: p in m.eligiblePairs <==> exists i :: 0 <= i < |m.eligiblePairs| && m.eligiblePairs[i] == p;
    }
    if e.declares.Some? {
      var d := e.declares.value;
      assert FrozenTask(d.consumerTask, d.repo, d.batch) in m.consumerTasks <==>
        exists c :: c in m.consumerTasks && c.task == d.consumerTask && c.batch == d.batch && c.repo == d.repo;
    }
  }

  function PairFor(id: string, d: Declaration): Pair {
    Pair(id, d.source, d.consumerTask, d.consumerGeneration, d.repo, d.batch)
  }

  function Minted(entries: seq<Entry>): seq<Pair> {
    if entries == [] then []
    else
      var e := entries[|entries| - 1];
      Minted(entries[..|entries| - 1]) + if e.declares.Some? then [PairFor(e.pair, e.declares.value)] else []
  }

  function Enrolled(m: Manifest, entries: seq<Entry>): seq<Pair> {
    m.eligiblePairs + Minted(entries)
  }

  /** The refusal names the review and the first thing wrong with it. */
  predicate Explains(m: Manifest, entries: seq<Entry>, n: nat, r: Refusal)
    requires n < |entries|
  {
    var e := entries[n];
    var reviewed, declared := ReviewedBefore(entries, n, e.pair), Predeclared(m, e.pair);
    && r.pair == e.pair
    && (r.DuplicateReview? <==> reviewed)
    && (r.MutatesPredeclared? <==> !reviewed && e.declares.Some? && declared)
    && (r.UnknownPair? <==> !reviewed && e.declares.None? && !declared)
    && (!r.DuplicateReview? && !r.MutatesPredeclared? && !r.UnknownPair? ==>
          e.declares.Some? && ExplainsDeclaration(m, e.declares.value, r))
  }

  predicate ExplainsDeclaration(m: Manifest, d: Declaration, r: Refusal) {
    var frozen := FrozenTask(d.consumerTask, d.repo, d.batch) in m.consumerTasks;
    && (r.BatchNotFrozen? <==> !HasBatch(m.batches, d.batch, d.repo))
    && (r.TaskNotFrozen? <==> HasBatch(m.batches, d.batch, d.repo) && !frozen)
    && (r.Incomplete? <==> BindsToScope(m, d) && !Complete(d))
  }

  /** `validate_and_merge_pairs`: refuses exactly when some review is not in
      order, naming the first such review, and otherwise enrolls the
      predeclared pairs followed by the minted ones. */
  method MergePairs(m: Manifest, entries: seq<Entry>) returns (r: Result<seq<Pair>, Refusal>)
    ensures r.Ok? <==> EntriesOk(m, entries, |entries|)
    ensures r.Ok? ==> r.value == Enrolled(m, entries)
    ensures r.Err? ==>
              exists n :: 0 <= n < |entries| && EntriesOk(m, entries, n) && !EntryOk(m, entries, n)
                  && Explains(m, entries, n, r.error)
  {
    hide HasBatch, Complete, Predeclared;
    var predeclared := set p | p in m.eligiblePairs :: p.id;
    PredeclaredIds(m, predeclared);
    var merged := m.eligiblePairs;
    var seen: set<string> := {};
    for n := 0 to |entries|
      invariant EntriesOk(m, entries, n)
      invariant merged == Enrolled(m, entries[..n])
      invariant forall id :: id in seen <==> ReviewedBefore(entries, n, id)
    {
      var e := entries[n];
      if e.pair in seen {
        assert !EntryOk(m, entries, n);
        return Err(DuplicateReview(e.pair));
      }
      seen := seen + {e.pair};
      if e.declares.Some? && e.pair in predeclared {
        assert !EntryOk(m, entries, n);
        return Err(MutatesPredeclared(e.pair));
      }
      if e.declares.None? && e.pair !in predeclared {
        assert !EntryOk(m, entries, n);
        return Err(UnknownPair(e.pair));
      }
      if e.declares.Some? {
        var refusal := CheckDeclaration(m, e.pair, e.declares.value);
        if refusal.Some? {
          assert !EntryOk(m, entries, n);
          return Err(refusal.value);
        }
        merged := merged + [PairFor(e.pair, e.declares.value)];
      }
      assert entries[..n + 1][..n] == entries[..n];
    }
    assert entries[..|entries|] == entries;
    r := Ok(merged);
  }

  lemma PredeclaredIds(m: Manifest, ids: set<string>)
    requires ids == set p | p in m.eligiblePairs :: p.id
    ensures forall id :: id in ids <==> Predeclared(m, id)
  {
    forall id | id in ids
      ensures Predeclared(m, id)
    {
      var p :| p in m.eligiblePairs && p.id == id;
    }
  }

  method CheckDeclaration(m: Manifest, id: string, d: Declaration) returns (r: Option<Refusal>)
    ensures r.None? <==> BindsToScope(m, d) && Complete(d)
    ensures r.Some? ==> r.value.pair == id && ExplainsDeclaration(m, d, r.value)
    ensures r.Some? ==> r.value.BatchNotFrozen? || r.value.TaskNotFrozen? || r.value.Incomplete?
  {
    if !HasBatch(m.batches, d.batch, d.repo) {
      return Some(BatchNotFrozen(id));
    }
    if FrozenTask(d.consumerTask, d.repo, d.batch) !in m.consumerTasks {
      return Some(TaskNotFrozen(id));
    }
    if !Complete(d) {
      return Some(Incomplete(id));
    }
    return None;
  }

  /** Membership of the minted pairs. */
  lemma {:induction false} MintedMembers(entries: seq<Entry>)
    ensures forall p :: p in Minted(entries) <==>
              exists k :: 0 <= k < |entries| && entries[k].declares.Some?
                  && p == PairFor(entries[k].pair, entries[k].declares.value)
  {
    if entries != [] {
      MintedMembers(entries[..|entries| - 1]);
    }
  }

  lemma {:induction false} MintedDiffer(m: Manifest, entries: seq<Entry>, n: nat)
    requires EntriesOk(m, entries, n)
    ensures IdsDiffer(Minted(entries[..n]))
  {
    hide BindsToScope, Complete, Predeclared;
    if n > 0 {
      MintedDiffer(m, entries, n - 1);
      assert entries[..n][..n - 1] == entries[..n - 1];
      MintedMembers(entries[..n - 1]);
      var before := Minted(entries[..n - 1]);
      forall i | 0 <= i < |before|
        ensures before[i].id != entries[n - 1].pair
      {
        assert before[i] in before;
        var k :| 0 <= k < n - 1 && entries[..n - 1][k].pair == before[i].id;
        assert !ReviewedBefore(entries, n - 1, entries[n - 1].pair) by {
          assert EntryOk(m, entries, n - 1);
        }
        assert entries[k].pair == before[i].id;
      }
    }
  }

  /** A pair bound to the frozen scope: to a declared batch of its repository,
      and, unless predeclared, to a frozen task of that batch. */
  predicate InFrozenScope(m: Manifest, p: Pair) {
    && HasBatch(m.batches, p.batch, p.repo) && InScope(m.scope, p.repo)
    && !IsBlank(p.source) && !IsBlank(p.consumerTask) && !IsBlank(p.consumerGeneration)
    && (p in m.eligiblePairs || FrozenTask(p.consumerTask, p.repo, p.batch) in m.consumerTasks)
  }

  /** The pair has the review's id and the declared fields. */
  predicate IsDeclared(p: Pair, id: string, d: Declaration) {
    && p.id == id && p.source == d.source && p.consumerTask == d.consumerTask
    && p.consumerGeneration == d.consumerGeneration && p.repo == d.repo && p.batch == d.batch
  }

  lemma MintedAreDeclared(entries: seq<Entry>)
    ensures forall p :: p in Minted(entries) <==>
              exists e :: e in entries && e.declares.Some? && IsDeclared(p, e.pair, e.declares.value)
  {
    hide Minted;
    MintedMembers(entries);
    forall p
      ensures p in Minted(entries) <==>
                exists e :: e in entries && e.declares.Some? && IsDeclared(p, e.pair, e.declares.value)
    {
      if e :| e in entries && e.declares.Some? && IsDeclared(p, e.pair, e.declares.value) {
        var k :| 0 <= k < |entries| && entries[k] == e;
        assert p == PairFor(entries[k].pair, entries[k].declares.value);
      }
      if p in Minted(entries) {
        var k :| 0 <= k < |entries| && entries[k].declares.Some?
                 && p == PairFor(entries[k].pair, entries[k].declares.value);
        assert entries[k] in entries;
      }
    }
  }

  /** Every enrolled pair is in the frozen scope and has an id of its own, no
      predeclared pair is changed, and every review is about an enrolled pair. */
  lemma EnrollmentIsSound(m: Manifest, entries: seq<Entry>)
    requires ManifestOk(m) && EntriesOk(m, entries, |entries|)
    ensures IdsDiffer(Enrolled(m, entries))
    ensures forall p :: p in Enrolled(m, entries) ==> InFrozenScope(m, p)
    ensures m.eligiblePairs <= Enrolled(m, entries)
    ensures forall p :: p in Enrolled(m, entries) <==>
              || p in m.eligiblePairs
              || exists e :: e in entries && e.declares.Some? && IsDeclared(p, e.pair, e.declares.value)
    ensures forall e :: e in entries ==> exists p :: p in Enrolled(m, entries) && p.id == e.pair
  {
    var minted := Minted(entries);
    assert entries[..|entries|] == entries;
    MintedMembers(entries);
    MintedDiffer(m, entries, |entries|);
    MintedAreDeclared(entries);
    EnrolledDiffer(m, entries);
    MintedInScope(m, entries);
    forall p | p in m.eligiblePairs
      ensures InFrozenScope(m, p)
    {
      var k :| 0 <= k < |m.eligiblePairs| && m.eligiblePairs[k] == p;
      assert PairOk(m, m.eligiblePairs[k]);
    }
    forall e | e in entries
      ensures exists p :: p in Enrolled(m, entries) && p.id == e.pair
    {
      var k :| 0 <= k < |entries| && entries[k] == e;
      assert EntryOk(m, entries, k);
      if e.declares.Some? {
        assert PairFor(e.pair, e.declares.value) in Minted(entries);
      } else {
        var j :| 0 <= j < |m.eligiblePairs| && m.eligiblePairs[j].id == e.pair;
        assert m.eligiblePairs[j] in Enrolled(m, entries);
      }
    }
  }

  lemma EnrolledDiffer(m: Manifest, entries: seq<Entry>)
    requires IdsDiffer(m.eligiblePairs) && EntriesOk(m, entries, |entries|) && IdsDiffer(Minted(entries))
    ensures IdsDiffer(Enrolled(m, entries))
  {
    hide BindsToScope, Complete;
    var old_, new_ := m.eligiblePairs, Minted(entries);
    MintedMembers(entries);
    forall i, j | 0 <= i < |old_| && 0 <= j < |new_|
      ensures old_[i].id != new_[j].id
    {
      assert new_[j] in new_;
      var k :| 0 <= k < |entries| && entries[k].declares.Some?
          && new_[j] == PairFor(entries[k].pair, entries[k].declares.value);
      assert EntryOk(m, entries, k);
    }
  }

  lemma MintedInScope(m: Manifest, entries: seq<Entry>)
    requires ManifestOk(m) && EntriesOk(m, entries, |entries|)
    ensures forall p :: p in Minted(entries) ==> InFrozenScope(m, p)
  {
    hide TasksOk, PairsOk, IsBlank;
    MintedMembers(entries);
    forall p | p in Minted(entries)
      ensures InFrozenScope(m, p)
    {
      var k :| 0 <= k < |entries| && entries[k].declares.Some?
          && p == PairFor(entries[k].pair, entries[k].declares.value);
      assert EntryOk(m, entries, k);
      var b :| b in m.batches && b.id == p.batch && b.repo == p.repo;
      var i :| 0 <= i < |m.batches| && m.batches[i] == b;
      assert BatchOk(m.scope, m.batches[i]);
    }
  }

  // ----- the pairs in report order ------------------------------------------------------------------

  const BY_PAIR_ID: (Pair, Pair) -> bool := (a: Pair, b: Pair) => Less(a.id, b.id)

  function ReportPairs(m: Manifest, entries: seq<Entry>): seq<Pair> {
    Sort(Enrolled(m, entries), BY_PAIR_ID)
  }

  lemma ByPairIdOrders()
    ensures Orders(BY_PAIR_ID)
  {
    forall a: Pair, b: Pair, c: Pair
      ensures BY_PAIR_ID(a, b) && BY_PAIR_ID(b, c) ==> BY_PAIR_ID(a, c)
      ensures BY_PAIR_ID(a, b) ==> !BY_PAIR_ID(b, a)
      ensures BY_PAIR_ID(a, b) ==> BY_PAIR_ID(a, c) || BY_PAIR_ID(c, b)
    {
      LessTotal(a.id, c.id);
      if Less(a.id, b.id) {
        LessAsymmetric(a.id, b.id);
        if Less(b.id, c.id) { LessTransitive(a.id, b.id, c.id); }
        if Less(c.id, a.id) { LessTransitive(c.id, a.id, b.id); }
      }
    }
  }

  lemma {:induction false} InsertAscends(p: Pair, sorted: seq<Pair>)
    requires Ascends(sorted, BY_PAIR_ID) && forall q :: q in sorted ==> q.id != p.id
    ensures Ascends(Insert(p, sorted, BY_PAIR_ID), BY_PAIR_ID)
  {
    if sorted != [] && Less(sorted[0].id, p.id) {
      InsertAscends(p, sorted[1..]);
      InsertMembers(p, sorted[1..], BY_PAIR_ID);
      AscendsCons(sorted[0], Insert(p, sorted[1..], BY_PAIR_ID), BY_PAIR_ID);
    } else if sorted != [] {
      LessTotal(sorted[0].id, p.id);
      forall q | q in sorted
        ensures Less(p.id, q.id)
      {
        if q != sorted[0] {
          LessTransitive(p.id, sorted[0].id, q.id);
        }
      }
      AscendsCons(p, sorted, BY_PAIR_ID);
    }
  }

  lemma {:induction false} SortAscends(pairs: seq<Pair>)
    requires IdsDiffer(pairs)
    ensures Ascends(Sort(pairs, BY_PAIR_ID), BY_PAIR_ID)
  {
    if pairs != [] {
      SortAscends(pairs[1..]);
      SortPermutes(pairs[1..], BY_PAIR_ID);
      InsertAscends(pairs[0], Sort(pairs[1..], BY_PAIR_ID));
    }
  }

  /** The report goes through the enrolled pairs by id, each once. */
  lemma ReportOrder(m: Manifest, entries: seq<Entry>)
    requires ManifestOk(m) && EntriesOk(m, entries, |entries|)
    ensures Ascends(ReportPairs(m, entries), BY_PAIR_ID)
    ensures var pairs := ReportPairs(m, entries); forall i, j :: 0 <= i < j < |pairs| ==> Less(pairs[i].id, pairs[j].id)
    ensures forall p :: p in ReportPairs(m, entries) <==> p in m.eligiblePairs || p in Minted(entries)
  {
    hide ManifestOk, EntriesOk, IdsDiffer, InFrozenScope;
    EnrollmentIsSound(m, entries);
    SortAscends(Enrolled(m, entries));
    SortPermutes(Enrolled(m, entries), BY_PAIR_ID);
  }

  /** The order in which the reviews are listed does not matter. */
  lemma ReviewOrderIrrelevant(m: Manifest, a: seq<Entry>, b: seq<Entry>)
    requires ManifestOk(m) && EntriesOk(m, a, |a|) && EntriesOk(m, b, |b|)
    requires forall e :: e in a <==> e in b
    ensures ReportPairs(m, a) == ReportPairs(m, b)
  {
    hide ManifestOk, EntriesOk, ReportPairs, Minted, Ascends, Orders;
    ByPairIdOrders();
    ReportOrder(m, a);
    ReportOrder(m, b);
    SameMinted(a, b);
    SameMinted(b, a);
    AscendingIsUnique(ReportPairs(m, a), ReportPairs(m, b), BY_PAIR_ID);
  }

  lemma SameMinted(a: seq<Entry>, b: seq<Entry>)
    requires forall e :: e in a ==> e in b
    ensures forall p :: p in Minted(a) ==> p in Minted(b)
  {
    hide Minted;
    MintedMembers(a);
    MintedMembers(b);
    forall p | p in Minted(a)
      ensures p in Minted(b)
    {
      var k :| 0 <= k < |a| && a[k].declares.Some? && p == PairFor(a[k].pair, a[k].declares.value);
      assert a[k] in b;
      var j :| 0 <= j < |b| && b[j] == a[k];
    }
  }
}
