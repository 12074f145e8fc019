/** A capture of tuples: the page and the closure of `bbs_report.rs`, merged into
    one record list, and the persistence-order claim, checked before it counts. */
module TupleCapture {
  import opened Basics
  import opened EvidenceRecords
  import opened StableSort

  datatype Order = PersistenceSequence | UnknownOrder

  datatype Capture = Capture(
    order: Order,
    orderClaimRejected: bool,
    tuples: seq<Record>,
    references: seq<Record>,
    truncated: bool,
    complete: Option<bool>,
    missingReferences: seq<string>)

  /** The input file: a bare array, an object with a tuple array, or neither. */
  datatype Raw =
    | BareArray(page: seq<Record>)
    | Envelope(
        page: seq<Record>,
        closure: seq<Record>,
        declaredOrder: Option<string>,
        truncated: bool,
        complete: Option<bool>,
        missing: seq<string>)
    | Malformed

  // ----- the order claim ------------------------------------------------------------

  /** The page ascends strictly and every record carries its position. */
  predicate Substantiated(tuples: seq<Record>, references: seq<Record>) {
    && (forall i :: 0 <= i < |tuples| ==> tuples[i].commitSequence.Some?)
    && (forall i, j :: 0 <= i < j < |tuples| && tuples[i].commitSequence.Some? && tuples[j].commitSequence.Some? ==>
          tuples[i].commitSequence.value < tuples[j].commitSequence.value)
    && forall i :: 0 <= i < |references| ==> references[i].commitSequence.Some?
  }

  /** `persistence_order_defect`: compares neighbours only, and finds a defect
      exactly when the claim is not substantiated. */
  method OrderDefect(tuples: seq<Record>, references: seq<Record>) returns (defect: bool)
    ensures defect <==> !Substantiated(tuples, references)
  {
    var previous: Option<nat> := None;
    for i := 0 to |tuples|
      invariant Substantiated(tuples[..i], [])
      invariant previous == if i == 0 then None else tuples[i - 1].commitSequence
      invariant previous.Some? ==> forall k :: 0 <= k < i ==> tuples[k].commitSequence.value <= previous.value
    {
      var seq' := tuples[i].commitSequence;
      if seq'.None? {
        return true;
      }
      if previous.Some? && seq'.value <= previous.value {
        assert !Substantiated(tuples, references) by {
          assert tuples[i - 1].commitSequence == previous;
        }
        return true;
      }
      previous := seq';
    }
    assert tuples[..|tuples|] == tuples;
    for i := 0 to |references|
      invariant forall k :: 0 <= k < i ==> references[k].commitSequence.Some?
    {
      if references[i].commitSequence.None? {
        return true;
      }
    }
    return false;
  }

  /** A claim is not substantiated exactly when some record has no position or a
      page record has one that is no greater than that of an earlier one. */
  lemma SubstantiatedMeans(tuples: seq<Record>, references: seq<Record>)
    ensures !Substantiated(tuples, references) <==>
              || (exists t :: (t in tuples || t in references) && t.commitSequence.None?)
              || exists i, j :: && 0 <= i < j < |tuples|
                                && tuples[i].commitSequence.Some? && tuples[j].commitSequence.Some?
                                && tuples[j].commitSequence.value <= tuples[i].commitSequence.value
  {
  }

  /** `parse_tuple_capture`: a declared order is a claim, accepted only when the
      records carry it; anything else is unknown order. */
  method ParseCapture(raw: Raw) returns (r: Option<Capture>)
    ensures r.None? <==> raw.Malformed?
    ensures raw.BareArray? ==> r == Some(Capture(UnknownOrder, false, raw.page, [], false, None, []))
    ensures raw.Envelope? ==>
              var claimed := raw.declaredOrder == Some("persistence_sequence");
              var accepted := claimed && Substantiated(raw.page, raw.closure);
              r == Some(Capture(if accepted then PersistenceSequence else UnknownOrder, claimed && !accepted,
                                raw.page, raw.closure, raw.truncated, raw.complete, raw.missing))
  {
    match raw {
      case BareArray(page) =>
        return Some(Capture(UnknownOrder, false, page, [], false, None, []));
      case Malformed =>
        return None;
      case Envelope(page, closure, declaredOrder, truncated, complete, missing) =>
        var order, rejected := UnknownOrder, false;
        if declaredOrder == Some("persistence_sequence") {
          var defect := OrderDefect(page, closure);
          if defect {
            rejected := true;
          } else {
            order := PersistenceSequence;
          }
        }
        return Some(Capture(order, rejected, page, closure, truncated, complete, missing));
    }
  }

  /** What every capture this module parses satisfies. */
  predicate OrderSound(capture: Capture) {
    capture.order.PersistenceSequence? ==> Substantiated(capture.tuples, capture.references)
  }

  // ----- merging page and closure ------------------------------------------------------

  predicate OnPage(tuples: seq<Record>, r: Record) {
    r.id.Some? && exists t :: t in tuples && t.id == r.id
  }

  /** The closure records that are not on the page already. */
  function NewReferences(tuples: seq<Record>, references: seq<Record>): seq<Record> {
    if references == [] then []
    else
      var last := references[|references| - 1];
      NewReferences(tuples, references[..|references| - 1]) + if OnPage(tuples, last) then [] else [last]
  }

  predicate AllPlaced(records: seq<Record>) {
    forall i :: 0 <= i < |records| ==> records[i].commitSequence.Some?
  }

  function Place(t: Record): nat {
    match t.commitSequence case Some(n) => n case None => 0
  }

  function SortId(t: Record): string {
    match t.id case Some(id) => id case None => ""
  }

  /** Persistence position, then id. */
  const BY_PLACE: (Record, Record) -> bool :=
    (a: Record, b: Record) => Place(a) < Place(b) || (Place(a) == Place(b) && Less(SortId(a), SortId(b)))

  /** `TupleCapture::merged` */
  function Merged(capture: Capture): seq<Record> {
    var all := capture.tuples + NewReferences(capture.tuples, capture.references);
    if AllPlaced(all) then Sort(all, BY_PLACE) else all
  }

  /** `merged` as the loop it is: keep the page, add what it lacks, sort if every
      record has a position. */
  method Merge(capture: Capture) returns (records: seq<Record>, merged: nat, duplicates: nat)
    ensures records == Merged(capture)
    ensures merged + duplicates == |capture.references|
    ensures |records| == |capture.tuples| + merged
    ensures duplicates == Repeated(capture.tuples, capture.references)
  {
    hide Sort;
    var pageIds := set t | t in capture.tuples && t.id.Some? :: t.id.value;
    records, merged, duplicates := capture.tuples, 0, 0;
    var references := capture.references;
    for i := 0 to |references|
      invariant records == capture.tuples + NewReferences(capture.tuples, references[..i])
      invariant merged + duplicates == i && |records| == |capture.tuples| + merged
      invariant duplicates == Repeated(capture.tuples, references[..i])
    {
      var r := references[i];
      OneMoreReference(capture.tuples, references, i);
      if r.id.Some? && r.id.value in pageIds {
        duplicates := duplicates + 1;
      } else {
        records := records + [r];
        merged := merged + 1;
      }
    }
    assert references[..|references|] == references;
    if AllPlaced(records) {
      SortLength(records);
      records := Sort(records, BY_PLACE);
    }
  }

  /** How many closure records have an id that is on the page already. */
  ghost function Repeated(tuples: seq<Record>, references: seq<Record>): nat {
    if references == [] then 0
    else
      var last := references[|references| - 1];
      Repeated(tuples, references[..|references| - 1])
      + if last.id.Some? && exists t :: t in tuples && t.id == last.id then 1 else 0
  }

  lemma OneMoreReference(tuples: seq<Record>, references: seq<Record>, n: nat)
    requires n < |references|
    ensures NewReferences(tuples, references[..n + 1]) ==
            NewReferences(tuples, references[..n]) + if OnPage(tuples, references[n]) then [] else [references[n]]
    ensures Repeated(tuples, references[..n + 1]) ==
            Repeated(tuples, references[..n]) + if OnPage(tuples, references[n]) then 1 else 0
  {
    assert references[..n + 1][..n] == references[..n];
  }

  lemma SortLength(records: seq<Record>)
    ensures |Sort(records, BY_PLACE)| == |records|
  {
    SortPermutes(records, BY_PLACE);
    assert |multiset(Sort(records, BY_PLACE))| == |multiset(records)|;
  }

  lemma ByPlaceOrders()
    ensures Orders(BY_PLACE)
  {
    forall a: Record, b: Record, c: Record
      ensures BY_PLACE(a, b) && BY_PLACE(b, c) ==> BY_PLACE(a, c)
      ensures BY_PLACE(a, b) ==> !BY_PLACE(b, a)
      ensures BY_PLACE(a, b) ==> BY_PLACE(a, c) || BY_PLACE(c, b)
    {
      var x, y, z := SortId(a), SortId(b), SortId(c);
      LessTotal(x, z);
      if Less(x, y) { LessAsymmetric(x, y); }
      if Less(x, y) && Less(y, z) { LessTransitive(x, y, z); }
      if Less(z, x) && Less(x, y) { LessTransitive(z, x, y); }
    }
  }

  lemma {:induction false} NewReferencesMembers(tuples: seq<Record>, references: seq<Record>)
    ensures forall r :: r in NewReferences(tuples, references) <==> r in references && !OnPage(tuples, r)
  {
    if references != [] {
      var n := |references| - 1;
      NewReferencesMembers(tuples, references[..n]);
      assert references == references[..n] + [references[n]];
    }
  }

  /** Merging keeps every page record and every closure record whose id the page
      lacks, and nothing else. */
  lemma MergedMembers(capture: Capture)
    ensures forall t :: t in Merged(capture) <==>
              || t in capture.tuples
              || (t in capture.references && (t.id.None? || forall u :: u in capture.tuples ==> u.id != t.id))
  {
    NewReferencesMembers(capture.tuples, capture.references);
    SortPermutes(capture.tuples + NewReferences(capture.tuples, capture.references), BY_PLACE);
  }

  /** `a` was persisted before `b`, or at the same position under a smaller id. */
  predicate PersistedBefore(a: Record, b: Record) {
    && a.commitSequence.Some? && b.commitSequence.Some?
    && (a.commitSequence.value < b.commitSequence.value
        || (a.commitSequence.value == b.commitSequence.value
            && Less(if a.id.Some? then a.id.value else "", if b.id.Some? then b.id.value else "")))
  }

  lemma ByPlaceMeans(a: Record, b: Record)
    requires a.commitSequence.Some? && b.commitSequence.Some?
    ensures BY_PLACE(a, b) <==> PersistedBefore(a, b)
  {
    assert SortId(a) == (if a.id.Some? then a.id.value else "") && SortId(b) == (if b.id.Some? then b.id.value else "");
  }

  /** Records of `page` found in `merged` stand there in the order of the page. */
  ghost predicate KeepsOrder(page: seq<Record>, merged: seq<Record>) {
    forall i, j, a, b :: Finds(page, i, merged, a) && Finds(page, j, merged, b) && i < j ==> a < b
  }

  predicate Finds(page: seq<Record>, i: int, merged: seq<Record>, a: int) {
    0 <= i < |page| && 0 <= a < |merged| && merged[a] == page[i]
  }

  /** An accepted order claim: the merged list is in persistence order, and the
      page records keep their array order in it. */
  lemma AcceptedOrderIsPersistence(capture: Capture)
    requires OrderSound(capture) && capture.order.PersistenceSequence?
    ensures AllPlaced(Merged(capture)) && InOrder(Merged(capture), BY_PLACE)
    ensures forall t :: t in Merged(capture) ==> t.commitSequence.Some?
    ensures forall i, j :: 0 <= i < j < |Merged(capture)| ==> !PersistedBefore(Merged(capture)[j], Merged(capture)[i])
    ensures KeepsOrder(capture.tuples, Merged(capture))
  {
    hide Merged;
    MergedByPlace(capture);
    var merged := Merged(capture);
    forall t | t in merged
      ensures t.commitSequence.Some?
    {
      var i :| 0 <= i < |merged| && merged[i] == t;
    }
    forall i, j | 0 <= i < j < |merged|
      ensures !PersistedBefore(merged[j], merged[i])
    {
      ByPlaceMeans(merged[j], merged[i]);
    }
  }

  lemma MergedByPlace(capture: Capture)
    requires OrderSound(capture) && capture.order.PersistenceSequence?
    ensures AllPlaced(Merged(capture)) && InOrder(Merged(capture), BY_PLACE)
    ensures KeepsOrder(capture.tuples, Merged(capture))
  {
    var all := capture.tuples + NewReferences(capture.tuples, capture.references);
    SubstantiatedPlaced(capture.tuples, capture.references);
    ByPlaceOrders();
    SortInOrder(all, BY_PLACE);
    SortPlaced(all);
    SortedKeepsOrder(capture.tuples, Merged(capture));
  }

  lemma SubstantiatedPlaced(tuples: seq<Record>, references: seq<Record>)
    requires Substantiated(tuples, references)
    ensures AllPlaced(tuples + NewReferences(tuples, references))
  {
    var extra := NewReferences(tuples, references);
    NewReferencesMembers(tuples, references);
    forall i | 0 <= i < |extra|
      ensures extra[i].commitSequence.Some?
    {
      assert extra[i] in references;
      var k :| 0 <= k < |references| && references[k] == extra[i];
    }
  }

  lemma SortPlaced(records: seq<Record>)
    requires AllPlaced(records)
    ensures AllPlaced(Sort(records, BY_PLACE))
  {
    var sorted := Sort(records, BY_PLACE);
    SortPermutes(records, BY_PLACE);
    forall i | 0 <= i < |sorted|
      ensures sorted[i].commitSequence.Some?
    {
      assert sorted[i] in records;
      var k :| 0 <= k < |records| && records[k] == sorted[i];
    }
  }

  lemma SortedKeepsOrder(page: seq<Record>, merged: seq<Record>)
    requires Substantiated(page, []) && InOrder(merged, BY_PLACE)
    ensures KeepsOrder(page, merged)
  {
    forall i, j, a, b | Finds(page, i, merged, a) && Finds(page, j, merged, b) && i < j
      ensures a < b
    {
      assert Place(page[i]) < Place(page[j]);
      assert BY_PLACE(merged[a], merged[b]) && a != b;
    }
  }
}
