/** The mechanism goal can be met: a capture of eight records, three pairs over two
    batches, and three reviews. */
module MechanismGoalExample {
  import opened Basics
  import opened EvidenceRecords
  import opened StableSort
  import opened TupleCapture
  import opened EvidenceIndex
  import opened EvidenceReport
  import opened EvidenceResults
  import opened Enrollment
  import opened MechanismGoal

  function Digit(i: nat): char {
    if i == 0 then '0' else if i == 1 then '1' else '2'
  }

  function Name(prefix: char, i: nat): string {
    [prefix, Digit(i)]
  }

  const EMPTY_PAYLOAD := Payload("", "", "", "", "", "", true, "", "", NotAList, None, None, None, NoTime, NoTime,
                                 NoTime, None, None, None, None, None, None, "")

  const EVIDENCE := Items([Some("s")])

  /** The source, an ordinary artifact of an agent that then exits. */
  const SOURCE := Record(Some("s"), Some(0), "artifact", "furniture", "", "", "r", Some(1), NoKind, true, true, false,
                         true, EMPTY_PAYLOAD.(spawn := "author", task := "t"))

  const EXIT := Record(Some("x"), Some(1), "event", "furniture", "", "", "r", Some(2), Kind(AGENT_EXIT), true, true,
                       true, true, EMPTY_PAYLOAD.(agent := "a", repo := "r", spawn := "author", session := "z",
                                                  task := "t", exitedAt := At(2)))

  /** The receipt of the `i`th pair, and the operator's verdict on it. */
  function Receipt(i: nat): Record {
    Record(Some(Name('u', i)), Some(2 + 2 * i), "artifact", "furniture", "", "w", "r", Some(3), Kind(REUSE), true, true,
           false, true,
           EMPTY_PAYLOAD.(agent := "w", spawn := Name('g', i), source := "s", task := Name('t', i),
                          evidence := EVIDENCE, outcome := Some("used")))
  }

  function Verdict(i: nat): Record {
    Record(Some(Name('v', i)), Some(3 + 2 * i), "artifact", "furniture", "", "operator", "r", Some(4), Kind(ASSESSMENT),
           true, true, false, true,
           EMPTY_PAYLOAD.(agent := "operator", receipt := Name('u', i), evidence := EVIDENCE,
                          verdict := Some("verified")))
  }

  function PairOf(i: nat): Pair {
    Pair(Name('p', i), "s", Name('t', i), Name('g', i), "r", if i == 0 then "b" else "c")
  }

  function EntryOf(i: nat): Entry {
    Entry(Name('p', i), None, Review(PreparedBy("s"), if i == 0 then Some("x") else None, false, false))
  }

  const SCOPE := Scope([], Window(None, None))

  const MANIFEST := Manifest(SCHEMA_VERSION, "e", SCOPE, [Batch("b", "arm", "r"), Batch("c", "arm", "r")], [],
                             [PairOf(0), PairOf(1), PairOf(2)])

  const ENTRIES := [EntryOf(0), EntryOf(1), EntryOf(2)]

  const TUPLES := [SOURCE, EXIT, Receipt(0), Verdict(0), Receipt(1), Verdict(1), Receipt(2), Verdict(2)]

  const CAPTURE := Capture(PersistenceSequence, false, TUPLES, [], false, Some(true), [])

  // ----- the records ------------------------------------------------------------------

  ghost predicate IsOurs(t: Record) {
    t == SOURCE || t == EXIT || exists i :: 0 <= i < 3 && (t == Receipt(i) || t == Verdict(i))
  }

  lemma OurRecords()
    ensures forall t :: t in Merged(CAPTURE) <==> IsOurs(t)
    ensures OrderSound(CAPTURE)
  {
    hide Merged, IsOurs, Substantiated;
    MergedMembers(CAPTURE);
    TuplesAreOurs();
    PlacesAscend();
  }

  lemma TuplesAreOurs()
    ensures forall t :: t in TUPLES <==> IsOurs(t)
  {
    hide Receipt, Verdict;
  }

  lemma PlacesAscend()
    ensures Substantiated(TUPLES, [])
  {
    assert forall i :: 0 <= i < 8 ==> TUPLES[i].commitSequence == Some(i);
  }

  lemma NoneBlank(i: nat)
    ensures !IsBlank("s") && !IsBlank("r") && !IsBlank("t") && !IsBlank("a") && !IsBlank("e") && !IsBlank("b")
    ensures !IsBlank("c") && !IsBlank("arm") && !IsBlank(Name('p', i)) && !IsBlank(Name('t', i))
            && !IsBlank(Name('g', i))
  {
    assert !IsSpace("s"[0]) && !IsSpace("r"[0]) && !IsSpace("t"[0]) && !IsSpace("a"[0]) && !IsSpace("e"[0]);
    assert !IsSpace("b"[0]) && !IsSpace("c"[0]) && !IsSpace("arm"[0]);
    assert !IsSpace(Name('p', i)[0]) && !IsSpace(Name('t', i)[0]) && !IsSpace(Name('g', i)[0]);
  }

  lemma ReceiptIs(i: nat)
    ensures IsReceipt(SCOPE, Receipt(i)) && !IsVerdict(SCOPE, Receipt(i)) && !IsRejected(SCOPE, Receipt(i))
    ensures Launch(Receipt(i), None, Some(3), AuthoredRecord) in LaunchRows(SCOPE, Receipt(i))
    ensures forall l :: l in LaunchRows(SCOPE, Receipt(i)) ==> l.spawn == Name('g', i)
  {
    assert Name('g', i) != "";
  }

  lemma VerdictIs(i: nat)
    ensures IsVerdict(SCOPE, Verdict(i)) && !IsReceipt(SCOPE, Verdict(i)) && !IsRejected(SCOPE, Verdict(i))
    ensures LaunchRows(SCOPE, Verdict(i)) == []
  {
    assert Name('u', i) != "";
  }

  lemma ExitIs()
    ensures IsExit(SCOPE, EXIT) && TelemetryOk(EXIT, AGENT_EXIT) && !IsRejected(SCOPE, EXIT)
    ensures !IsReceipt(SCOPE, EXIT) && !IsVerdict(SCOPE, EXIT)
    ensures forall l :: l in LaunchRows(SCOPE, EXIT) ==> l.session == Some("z")
  {
    NoneBlank(0);
  }

  lemma SourceIs()
    ensures SourceOk(SOURCE, "r") && ContractOk(SOURCE) && !IsRejected(SCOPE, SOURCE) && LaunchRows(SCOPE, SOURCE) == []
    ensures !IsReceipt(SCOPE, SOURCE) && !IsVerdict(SCOPE, SOURCE) && !DeclaresEvidence(SOURCE)
  {
  }

  // ----- the index -------------------------------------------------------------------------

  function Idx(): Index {
    IndexOf(SCOPE, Merged(CAPTURE))
  }

  lemma IdsDistinct(t: Record, u: Record)
    requires IsOurs(t) && IsOurs(u) && t.id == u.id && (t == SOURCE || t == EXIT)
    ensures t == u
  {
    assert |"s"| == |"x"| == 1 && "s"[0] != "x"[0];
    assert forall i: nat :: |Name('u', i)| == 2 && |Name('v', i)| == 2;
  }

  lemma IndexHolds()
    ensures "s" in Idx().byId && Idx().byId["s"] == SOURCE
    ensures "x" in Idx().byId && Idx().byId["x"] == EXIT
    ensures Idx().rejected == {}
  {
    hide IndexOf, Merged, IsRejected, IsOurs;
    OurRecords();
    assert IsOurs(SOURCE) && IsOurs(EXIT) by { AreOurs(); }
    ByIdMembers(SCOPE, Merged(CAPTURE));
    IdsDistinct(SOURCE, Idx().byId["s"]);
    IdsDistinct(EXIT, Idx().byId["x"]);
    RejectedMembers(SCOPE, Merged(CAPTURE));
    forall t | t in Merged(CAPTURE)
      ensures !IsRejected(SCOPE, t)
    {
      NotRejected(t);
    }
  }

  lemma AreOurs()
    ensures IsOurs(SOURCE) && IsOurs(EXIT)
    ensures forall i :: 0 <= i < 3 ==> IsOurs(Receipt(i)) && IsOurs(Verdict(i))
  {
  }

  lemma NotRejected(t: Record)
    requires IsOurs(t)
    ensures !IsRejected(SCOPE, t)
  {
    hide IsRejected, Receipt, Verdict;
    SourceIs();
    ExitIs();
    if i :| 0 <= i < 3 && (t == Receipt(i) || t == Verdict(i)) {
      ReceiptIs(i);
      VerdictIs(i);
    }
  }

  lemma EvidenceResolves()
    ensures Check(EVIDENCE, Idx().byId, Idx().rejected, "r") == Resolved
  {
    hide IndexOf, Merged, IsBlank, ContractOk;
    IndexHolds();
    NoneBlank(0);
    SourceIs();
  }

  // ----- each pair ---------------------------------------------------------------------------

  lemma NamesDiffer(prefix: char, i: nat, j: nat)
    requires i < 3 && j < 3
    ensures Name(prefix, i) == Name(prefix, j) <==> i == j
  {
    assert Name(prefix, i)[1] == Name(prefix, j)[1] <==> i == j;
  }

  lemma ReceiptsIndexed(i: nat)
    requires i < 3
    ensures Receipt(i) in Idx().receipts
    ensures forall c :: c in Idx().receipts ==> IsOurs(c) && IsReceipt(SCOPE, c)
  {
    hide IndexOf, Merged, IsReceipt, Receipt, Verdict;
    OurRecords();
    ReceiptMembers(SCOPE, Merged(CAPTURE));
    ReceiptIs(i);
    assert IsOurs(Receipt(i));
  }

  lemma ReceiptSupports(idx: Index, i: nat)
    requires Check(EVIDENCE, idx.byId, idx.rejected, "r") == Resolved
    ensures SupportsClaim(idx, PairOf(i), SOURCE, Receipt(i))
    ensures forall c :: SupportsClaim(idx, PairOf(i), SOURCE, c) ==> c.payload.spawn == Name('g', i)
  {
    hide Check;
  }

  lemma ClaimFound(i: nat)
    requires i < 3
    ensures FirstClaim(Idx(), PairOf(i), SOURCE, Idx().receipts) == Some(Receipt(i))
  {
    hide Idx, Check, IsReceipt, FirstClaim, SupportsClaim, Receipt, PairOf, IsOurs;
    EvidenceResolves();
    ReceiptsIndexed(i);
    ReceiptSupports(Idx(), i);
    OnlyReceipt(FirstClaim(Idx(), PairOf(i), SOURCE, Idx().receipts).value, i);
  }

  lemma OnlyReceipt(c: Record, i: nat)
    requires i < 3 && IsOurs(c) && IsReceipt(SCOPE, c) && c.payload.spawn == Name('g', i)
    ensures c == Receipt(i)
  {
    hide IsReceipt, LaunchRows, IsRejected;
    SourceIs();
    ExitIs();
    var j :| 0 <= j < 3 && (c == Receipt(j) || c == Verdict(j));
    VerdictIs(j);
    NamesDiffer('g', i, j);
  }

  lemma OnlyVerdict(c: Record, i: nat)
    requires i < 3 && IsOurs(c) && IsVerdict(SCOPE, c) && c.payload.receipt == Name('u', i)
    ensures c == Verdict(i)
  {
    hide IsVerdict, LaunchRows, IsRejected, IsReceipt, SourceOk, ContractOk, TelemetryOk, IsExit;
    SourceIs();
    ExitIs();
    var j :| 0 <= j < 3 && (c == Receipt(j) || c == Verdict(j));
    ReceiptIs(j);
    NamesDiffer('u', i, j);
  }

  lemma VerdictIndexed(i: nat) returns (v: Placed)
    requires i < 3
    ensures v in Idx().verdicts && v.record == Verdict(i)
    ensures forall w :: w in Idx().verdicts ==> IsOurs(w.record) && IsVerdict(SCOPE, w.record)
  {
    hide IndexOf, Merged, IsVerdict, Receipt, Verdict;
    OurRecords();
    VerdictMembers(SCOPE, Merged(CAPTURE));
    VerdictIs(i);
    assert IsOurs(Verdict(i));
    var k :| 0 <= k < |Merged(CAPTURE)| && Merged(CAPTURE)[k] == Verdict(i);
    v := Placed(k, Verdict(i));
  }

  lemma VerdictTrusted(idx: Index, i: nat)
    requires Check(EVIDENCE, idx.byId, idx.rejected, "r") == Resolved
    ensures Trusted(idx, PairOf(i), Name('u', i), Verdict(i))
    ensures forall c :: Trusted(idx, PairOf(i), Name('u', i), c) ==> c.payload.receipt == Name('u', i)
  {
    hide Check;
  }

  lemma VerdictFound(i: nat)
    requires i < 3
    ensures CurrentVerdict(PersistenceSequence, TrustedVerdicts(Idx(), PairOf(i), Name('u', i), Idx().verdicts))
            == Some(Verdict(i))
  {
    hide Idx, Check, IsVerdict, TrustedVerdicts, Trusted, Verdict, PairOf, IsOurs, Name;
    var candidates := TrustedVerdicts(Idx(), PairOf(i), Name('u', i), Idx().verdicts);
    EvidenceResolves();
    var v := VerdictIndexed(i);
    VerdictTrusted(Idx(), i);
    TrustedMembers(Idx(), PairOf(i), Name('u', i), Idx().verdicts);
    assert v in candidates;
    var c := if |candidates| == 1 then candidates[0] else Latest(candidates);
    assert c in candidates;
    OnlyVerdict(c.record, i);
  }

  lemma ConsumerLaunched(i: nat)
    requires i < 3
    ensures Launched(Idx(), "r", Name('g', i))
  {
    hide IndexOf, Merged, LaunchRows, IsReceipt, IsVerdict, IsRejected, Receipt, Verdict;
    OurRecords();
    LaunchMembers(SCOPE, Merged(CAPTURE));
    ReceiptIs(i);
    assert IsOurs(Receipt(i));
    var l := Launch(Receipt(i), None, Some(3), AuthoredRecord);
    LaunchOfReceipt(i, l);
    assert l in Idx().launches;
    var k :| 0 <= k < |Idx().launches| && Idx().launches[k] == l;
  }

  lemma LaunchOfReceipt(i: nat, l: LaunchRow)
    requires l == Launch(Receipt(i), None, Some(3), AuthoredRecord)
    ensures l.repo == "r" && l.spawn == Name('g', i)
  {
  }

  lemma NotRelaunched()
    ensures !RelaunchBetween(Idx().launches, "r", "author", "z", 2, 3)
  {
    hide IndexOf, Merged, LaunchRows, IsOurs;
    OurRecords();
    LaunchMembers(SCOPE, Merged(CAPTURE));
    forall k | 0 <= k < |Idx().launches|
      ensures !IsRelaunch(Idx().launches[k], "r", "author", "z", 2, 3)
    {
      var l := Idx().launches[k];
      assert l in Idx().launches;
      var t :| t in Merged(CAPTURE) && l in LaunchRows(SCOPE, t);
      NoRelaunchIn(t, l);
    }
  }

  lemma NoRelaunchIn(t: Record, l: LaunchRow)
    requires IsOurs(t) && l in LaunchRows(SCOPE, t)
    ensures l.session == Some("z") || l.spawn != "author"
  {
    hide LaunchRows, Receipt, Verdict;
    SourceIs();
    ExitIs();
    if i :| 0 <= i < 3 && (t == Receipt(i) || t == Verdict(i)) {
      ReceiptIs(i);
      VerdictIs(i);
      assert |Name('g', i)| == 2 && |"author"| == 6;
    }
  }

  lemma ExitIndexed()
    ensures FindExit(Idx().exits, "x") == Some(ExitOf(EXIT))
  {
    hide IndexOf, Merged, IsExit, TelemetryOk, FindExit, IsOurs, LaunchRows, IsRejected, IsReceipt, IsVerdict;
    OurRecords();
    AreOurs();
    ExitIs();
    ExitMembers(SCOPE, Merged(CAPTURE));
    assert ExitOf(EXIT) in Idx().exits;
    ExitFound(Idx().exits, ExitOf(EXIT));
    var e :| e in Merged(CAPTURE) && IsExit(SCOPE, e) && FindExit(Idx().exits, "x").value == ExitOf(e);
    OnlyExit(e);
  }

  lemma OnlyExit(e: Record)
    requires IsOurs(e) && RecordId(e) == "x"
    ensures e == EXIT
  {
    assert forall i: nat :: |Name('u', i)| == 2 && |Name('v', i)| == 2;
    assert |"s"| == |"x"| == 1 && "s"[0] != "x"[0];
  }

  lemma ExitCreditsAuthor(launches: seq<LaunchRow>)
    requires !RelaunchBetween(launches, "r", "author", "z", 2, 3)
    ensures ExitCredits(launches, ExitOf(EXIT), "r", SOURCE, Some(3))
  {
    hide RelaunchBetween, IsBlank;
    NoneBlank(0);
  }

  lemma AuthorGone()
    ensures AuthorExited(Idx(), "x", PairOf(0), SOURCE, Some(3))
  {
    hide Idx, TelemetryOk, FindExit, ExitCredits, RelaunchBetween, IsExit, LaunchRows, IsRejected, IsReceipt, IsVerdict;
    IndexHolds();
    ExitIs();
    ExitIndexed();
    NotRelaunched();
    ExitCreditsAuthor(Idx().launches);
  }

  lemma {:induction false} ExitFound(exits: seq<ExitRow>, row: ExitRow)
    requires row in exits
    ensures FindExit(exits, row.record).Some?
  {
    if exits[0] != row {
      assert row in exits[1..];
      ExitFound(exits[1..], row);
    }
  }

  /** Every pair is a counted effect, the first one after its author's exit. */
  lemma PairCounts(i: nat)
    requires i < 3
    ensures Exclusion(Idx(), PairOf(i)).None?
    ensures var r := Evaluate(Idx(), PersistenceSequence, PairOf(i), Some(EntryOf(i).review));
            r.pair == PairOf(i) && r.countsAsEffect && (i == 0 ==> r.authorTerminal.Some?)
  {
    hide Idx, Check, FirstClaim, CurrentVerdict, TrustedVerdicts, Launched, AuthorExited, SourceOk;
    IndexHolds();
    SourceIs();
    assert "author" != Name('g', i) by { assert |"author"| == 6 && |Name('g', i)| == 2; }
    ClaimFound(i);
    VerdictFound(i);
    ConsumerLaunched(i);
    AuthorGone();
  }

  // ----- the report -----------------------------------------------------------------------------

  lemma ManifestFine()
    ensures ManifestOk(MANIFEST)
  {
    hide IsBlank;
    NoneBlank(0);
    NoneBlank(1);
    NoneBlank(2);
    var batches := MANIFEST.batches;
    assert "b"[0] != "c"[0];
    assert batches[0] in batches && batches[1] in batches;
    assert HasBatch(batches, "b", "r") && HasBatch(batches, "c", "r");
    assert batches[..|batches|] == batches && MANIFEST.eligiblePairs[..3] == MANIFEST.eligiblePairs;
    IdsOfPairsDiffer();
  }

  lemma IdsOfPairsDiffer()
    ensures IdsDiffer(MANIFEST.eligiblePairs)
  {
    forall i, j | 0 <= i < j < 3
      ensures PairOf(i).id != PairOf(j).id
    {
      NamesDiffer('p', i, j);
    }
  }

  lemma EntriesFine()
    ensures EntriesOk(MANIFEST, ENTRIES, 3) && Minted(ENTRIES) == []
  {
    forall n | 0 <= n < 3
      ensures EntryOk(MANIFEST, ENTRIES, n)
    {
      forall k | 0 <= k < n
        ensures ENTRIES[k].pair != ENTRIES[n].pair
      {
        NamesDiffer('p', k, n);
      }
      assert MANIFEST.eligiblePairs[n].id == ENTRIES[n].pair;
    }
    MintedMembers(ENTRIES);
    assert Minted(ENTRIES) != [] ==> Minted(ENTRIES)[0] in Minted(ENTRIES);
  }

  lemma {:induction false} ReviewsByPair(n: nat)
    requires n <= 3
    ensures forall i :: 0 <= i < n ==>
              Name('p', i) in ReviewTable(ENTRIES[..n]) && ReviewTable(ENTRIES[..n])[Name('p', i)] == EntryOf(i).review
  {
    if n > 0 {
      ReviewsByPair(n - 1);
      assert ENTRIES[..n][..n - 1] == ENTRIES[..n - 1] && ENTRIES[n - 1] == EntryOf(n - 1);
      forall i | 0 <= i < n - 1
        ensures Name('p', i) != Name('p', n - 1)
      {
        assert Name('p', i)[1] != Name('p', n - 1)[1];
      }
    }
  }

  lemma PairsReported()
    ensures Ascends(ReportPairs(MANIFEST, ENTRIES), BY_PAIR_ID)
    ensures forall p :: p in ReportPairs(MANIFEST, ENTRIES) <==> exists i :: 0 <= i < 3 && p == PairOf(i)
  {
    hide ManifestOk, EntriesOk, ReportPairs, Minted, PairOf;
    ManifestFine();
    EntriesFine();
    ReportOrder(MANIFEST, ENTRIES);
    assert forall p :: p in MANIFEST.eligiblePairs <==> exists i :: 0 <= i < 3 && p == PairOf(i);
  }

  lemma NotSeen(i: nat, k: nat)
    requires i < 3 && k < |ReportPairs(MANIFEST, ENTRIES)| && ReportPairs(MANIFEST, ENTRIES)[k] == PairOf(i)
    ensures !SeenBefore(ReportPairs(MANIFEST, ENTRIES), k, KeyOf(PairOf(i)))
  {
    hide ReportPairs;
    var pairs := ReportPairs(MANIFEST, ENTRIES);
    PairsReported();
    forall j | 0 <= j < k
      ensures KeyOf(pairs[j]) != KeyOf(PairOf(i))
    {
      assert pairs[j] in pairs;
      var n :| 0 <= n < 3 && pairs[j] == PairOf(n);
      assert BY_PAIR_ID(pairs[j], pairs[k]);
      LessIrreflexive(pairs[j].id);
      NamesDiffer('t', n, i);
    }
  }

  function ResultOf(i: nat): PairResult
    requires i < 3
  {
    IndexHolds();
    Evaluate(Idx(), PersistenceSequence, PairOf(i), Some(EntryOf(i).review))
  }

  lemma ResultReported(i: nat)
    requires i < 3
    ensures ResultOf(i) in Effects(EvaluatedPairs(MANIFEST, CAPTURE, ENTRIES))
    ensures ResultOf(i).pair == PairOf(i) && (i == 0 ==> ResultOf(i).authorTerminal.Some?)
  {
    hide ReportPairs, IndexOf, Merged, Evaluate, Exclusion, SeenBefore, EvaluatedOf, ReviewTable, Effects, PairOf;
    var pairs := ReportPairs(MANIFEST, ENTRIES);
    PairsReported();
    assert PairOf(i) in pairs;
    var k :| 0 <= k < |pairs| && pairs[k] == PairOf(i);
    PairCounts(i);
    NotSeen(i, k);
    ReviewsByPair(3);
    assert ENTRIES[..3] == ENTRIES;
    assert ReviewOf(ReviewTable(ENTRIES), PairOf(i)) == Some(EntryOf(i).review) by { IdOfPair(i); }
    EvaluatedAre(Idx(), PersistenceSequence, ReviewTable(ENTRIES), pairs, |pairs|);
    EffectsMembers(EvaluatedPairs(MANIFEST, CAPTURE, ENTRIES));
  }

  lemma IdOfPair(i: nat)
    ensures PairOf(i).id == Name('p', i)
  {
  }

  lemma ThreeMembers(xs: seq<PairResult>, a: PairResult, b: PairResult, c: PairResult)
    requires a in xs && b in xs && c in xs && a != b && a != c && b != c
    ensures |xs| >= 3
  {
    var i :| 0 <= i < |xs| && xs[i] == a;
    var j :| 0 <= j < |xs| && xs[j] == b;
    var k :| 0 <= k < |xs| && xs[k] == c;
  }

  lemma BatchesDiffer(effects: seq<PairResult>, a: PairResult, b: PairResult)
    requires a in effects && b in effects && a.pair.batch != b.pair.batch
    ensures |Batches(effects)| >= 2
  {
    assert {a.pair.batch, b.pair.batch} <= Batches(effects);
    assert |Batches(effects) - {a.pair.batch, b.pair.batch}| + 2 == |Batches(effects)|;
  }

  lemma ResultsDiffer()
    ensures PairOf(0) != PairOf(1) && PairOf(0) != PairOf(2) && PairOf(1) != PairOf(2)
    ensures PairOf(0).batch != PairOf(1).batch
  {
    IdsOfPairsDiffer();
    var pairs := MANIFEST.eligiblePairs;
    assert pairs[0].id != pairs[1].id && pairs[0].id != pairs[2].id && pairs[1].id != pairs[2].id;
    assert "b"[0] != "c"[0];
  }

  /** A valid manifest, reviews in order and a capture in accepted order for which
      the goal is met. */
  lemma GoalCanBeMet()
    ensures ManifestOk(MANIFEST) && EntriesOk(MANIFEST, ENTRIES, |ENTRIES|) && OrderSound(CAPTURE)
    ensures GoalMet(CAPTURE, EvaluatedPairs(MANIFEST, CAPTURE, ENTRIES))
  {
    hide ManifestOk, EntriesOk, OrderSound, EvaluatedPairs, Effects, ResultOf, Batches, AuthorExits, PairOf;
    ManifestFine();
    EntriesFine();
    OurRecords();
    var evaluated := EvaluatedPairs(MANIFEST, CAPTURE, ENTRIES);
    ResultReported(0);
    ResultReported(1);
    ResultReported(2);
    ResultsDiffer();
    ThreeMembers(Effects(evaluated), ResultOf(0), ResultOf(1), ResultOf(2));
    BatchesDiffer(Effects(evaluated), ResultOf(0), ResultOf(1));
    EffectsMembers(evaluated);
  }
}
