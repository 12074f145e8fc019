/** The span reader of `critical_path.rs`: sort by id, keep the first row of each
    occurrence key, and total what is left.  The result is shown to be a function
    of the set of rows, so replays and reorderings cannot change it. */
module CriticalPath {
  import opened Basics
  import opened StableSort

  /** An RFC 3339 time in milliseconds, or text that is not one. */
  datatype Stamp = Unreadable | At(ms: int)

  /** The fields of a span payload that are read; `rest` is everything else. */
  datatype Payload = Payload(
    phase: Option<string>,
    attempt: Option<nat>,
    target: Option<string>,
    candidate: Option<string>,
    lane: Option<string>,
    occurrenceKey: Option<string>,
    queuedAt: Option<Stamp>,
    startedAt: Option<Stamp>,
    endedAt: Option<Stamp>,
    durationMs: Option<int>,
    authority: Option<string>,
    proofKind: Option<string>,
    proofReused: bool,
    terminalReason: Option<string>,
    rest: string)

  /** A captured span; a row without an id sorts as the empty string. */
  datatype Row = Row(id: string, payload: Payload)

  datatype Key = Key(
    phase: string,
    attempt: nat,
    target: Option<string>,
    candidate: Option<string>,
    lane: Option<string>,
    occurrenceKey: Option<string>)

  function GetOr<T>(o: Option<T>, default: T): T {
    match o case Some(v) => v case None => default
  }

  function KeyOf(p: Payload): Key {
    Key(GetOr(p.phase, "?"), GetOr(p.attempt, 1), p.target, p.candidate, p.lane, p.occurrenceKey)
  }

  // ----- sorting and keeping first occurrences ----------------------------------

  const BY_ID: (Row, Row) -> bool := (a: Row, b: Row) => Less(a.id, b.id)

  /** `sort_by` on the ids; stable, so equal ids keep their order. */
  function SortById(rows: seq<Row>): seq<Row> {
    Sort(rows, BY_ID)
  }

  /** The rows that survive, given the keys already seen. */
  function Kept(rows: seq<Row>, seen: set<Key>): seq<Row> {
    if rows == [] then []
    else
      var key := KeyOf(rows[0].payload);
      if key in seen then Kept(rows[1..], seen) else [rows[0]] + Kept(rows[1..], seen + {key})
  }

  function Payloads(rows: seq<Row>): (ps: seq<Payload>)
    ensures |ps| == |rows| && forall i :: 0 <= i < |rows| ==> ps[i] == rows[i].payload
  {
    if rows == [] then [] else [rows[0].payload] + Payloads(rows[1..])
  }

  function KeptRows(rows: seq<Row>): seq<Row> {
    Kept(SortById(rows), {})
  }

  function Phases(rows: seq<Row>): seq<Payload> {
    Payloads(KeptRows(rows))
  }

  // ----- what survives, without sorting --------------------------------------------

  /** Some row has the same occurrence key and a smaller id. */
  ghost predicate Shadowed(rows: seq<Row>, row: Row) {
    exists r :: r in rows && Less(r.id, row.id) && KeyOf(r.payload) == KeyOf(row.payload)
  }

  /** No two different rows share an id and both survive; distinct ids are
      enough, and so is replaying identical rows. */
  ghost predicate IdsDecide(rows: seq<Row>) {
    forall a, b :: a in rows && b in rows && a.id == b.id && !Shadowed(rows, a) && !Shadowed(rows, b) ==> a == b
  }

  ghost predicate Ascending(rows: seq<Row>) {
    forall i, j :: 0 <= i < j < |rows| ==> AtMost(rows[i].id, rows[j].id)
  }

  ghost predicate SameRows(a: seq<Row>, b: seq<Row>) {
    forall r :: r in a <==> r in b
  }

  lemma ByIdOrders()
    ensures Orders(BY_ID)
  {
    forall a: Row, b: Row, c: Row
      ensures BY_ID(a, b) && BY_ID(b, c) ==> BY_ID(a, c)
      ensures BY_ID(a, b) ==> !BY_ID(b, a)
      ensures BY_ID(a, b) ==> BY_ID(a, c) || BY_ID(c, b)
    {
      if Less(a.id, b.id) {
        LessAsymmetric(a.id, b.id);
        LessTotal(a.id, c.id);
        if Less(c.id, a.id) { LessTransitive(c.id, a.id, b.id); }
        if Less(b.id, c.id) { LessTransitive(a.id, b.id, c.id); }
      }
    }
  }

  lemma SortMembers(rows: seq<Row>)
    ensures SameRows(SortById(rows), rows)
  {
    SortPermutes(rows, BY_ID);
  }

  lemma NotLessMeansAtMost(a: string, b: string)
    ensures !Less(b, a) ==> AtMost(a, b)
  {
    LessTotal(a, b);
  }

  lemma AscendingCons(row: Row, rows: seq<Row>)
    requires Ascending(rows) && forall r :: r in rows ==> AtMost(row.id, r.id)
    ensures Ascending([row] + rows)
  {
  }

  lemma SortAscending(rows: seq<Row>)
    ensures Ascending(SortById(rows))
  {
    ByIdOrders();
    SortInOrder(rows, BY_ID);
    var sorted := SortById(rows);
    forall i, j | 0 <= i < j < |sorted|
      ensures AtMost(sorted[i].id, sorted[j].id)
    {
      assert !BY_ID(sorted[j], sorted[i]);
      NotLessMeansAtMost(sorted[i].id, sorted[j].id);
    }
  }

  /** `r` is there, its key was not seen, and no earlier row has its key. */
  ghost predicate FirstUnseen(rows: seq<Row>, seen: set<Key>, r: Row) {
    && KeyOf(r.payload) !in seen
    && exists i :: 0 <= i < |rows| && rows[i] == r && NoneBefore(rows, i, KeyOf(r.payload))
  }

  ghost predicate NoneBefore(rows: seq<Row>, i: nat, key: Key) {
    forall j :: 0 <= j < i && j < |rows| ==> KeyOf(rows[j].payload) != key
  }

  lemma {:induction false} KeptMeans(rows: seq<Row>, seen: set<Key>, r: Row)
    ensures r in Kept(rows, seen) <==> FirstUnseen(rows, seen, r)
  {
    if rows != [] {
      var key, tail := KeyOf(rows[0].payload), rows[1..];
      KeptMeans(tail, seen, r);
      KeptMeans(tail, seen + {key}, r);
      FirstUnseenCons(rows, seen, r);
      assert [rows[0]] + Kept(tail, seen + {key}) != [];
    }
  }

  lemma FirstUnseenCons(rows: seq<Row>, seen: set<Key>, r: Row)
    requires rows != []
    ensures FirstUnseen(rows, seen, r) <==>
              if KeyOf(rows[0].payload) == KeyOf(r.payload) then r == rows[0] && KeyOf(r.payload) !in seen
              else FirstUnseen(rows[1..], seen, r)
  {
    var key, tail := KeyOf(r.payload), rows[1..];
    if FirstUnseen(rows, seen, r) && KeyOf(rows[0].payload) != key {
      var i :| 0 <= i < |rows| && rows[i] == r && NoneBefore(rows, i, key);
      assert tail[i - 1] == r && NoneBefore(tail, i - 1, key);
    }
    if FirstUnseen(tail, seen, r) && KeyOf(rows[0].payload) != key {
      var i :| 0 <= i < |tail| && tail[i] == r && NoneBefore(tail, i, key);
      assert rows[i + 1] == r && NoneBefore(rows, i + 1, key);
    }
    if r == rows[0] {
      assert NoneBefore(rows, 0, key);
    }
  }

  /** In a sorted list the survivors are the rows that nothing shadows. */
  lemma KeptIsUnshadowed(sorted: seq<Row>, r: Row)
    requires Ascending(sorted) && IdsDecide(sorted)
    ensures r in Kept(sorted, {}) <==> r in sorted && !Shadowed(sorted, r)
  {
    KeptMeans(sorted, {}, r);
    var key := KeyOf(r.payload);
    if FirstUnseen(sorted, {}, r) {
      var i :| 0 <= i < |sorted| && sorted[i] == r && NoneBefore(sorted, i, key);
      forall q | q in sorted && KeyOf(q.payload) == key
        ensures !Less(q.id, r.id)
      {
        var j :| 0 <= j < |sorted| && sorted[j] == q;
        if i != j {
          LessIrreflexive(r.id);
          if Less(q.id, r.id) { LessAsymmetric(q.id, r.id); }
        }
        LessIrreflexive(r.id);
      }
    }
    if r in sorted && !Shadowed(sorted, r) {
      var n :| 0 <= n < |sorted| && sorted[n] == r;
      var i := FirstWithKey(sorted, key, n);
      LessIrreflexive(r.id);
      assert sorted[i].id == r.id;
      assert !Shadowed(sorted, sorted[i]);
      assert sorted[i] == r;
    }
  }

  lemma {:induction false} FirstWithKey(rows: seq<Row>, key: Key, n: nat) returns (i: nat)
    requires n < |rows| && KeyOf(rows[n].payload) == key
    ensures i <= n && KeyOf(rows[i].payload) == key && NoneBefore(rows, i, key)
  {
    i := 0;
    while KeyOf(rows[i].payload) != key
      invariant i <= n && NoneBefore(rows, i, key)
      decreases n - i
    {
      i := i + 1;
    }
  }

  lemma KeptFrom(rows: seq<Row>, seen: set<Key>)
    ensures forall r :: r in Kept(rows, seen) ==> r in rows && KeyOf(r.payload) !in seen
  {
    forall r | r in Kept(rows, seen)
      ensures r in rows && KeyOf(r.payload) !in seen
    {
      KeptMeans(rows, seen, r);
    }
  }

  lemma {:induction false} KeptAscending(sorted: seq<Row>, seen: set<Key>)
    requires Ascending(sorted)
    ensures Ascending(Kept(sorted, seen))
  {
    if sorted != [] {
      var key := KeyOf(sorted[0].payload);
      var seen' := if key in seen then seen else seen + {key};
      KeptAscending(sorted[1..], seen');
      KeptFrom(sorted[1..], seen');
      forall r | r in sorted[1..]
        ensures AtMost(sorted[0].id, r.id)
      {
        var j :| 0 <= j < |sorted[1..]| && sorted[1..][j] == r;
        assert sorted[j + 1] == r;
      }
      AscendingCons(sorted[0], Kept(sorted[1..], seen'));
    }
  }

  ghost predicate KeysDiffer(rows: seq<Row>) {
    forall i, j :: 0 <= i < j < |rows| ==> KeyOf(rows[i].payload) != KeyOf(rows[j].payload)
  }

  lemma {:induction false} KeptKeysDiffer(rows: seq<Row>, seen: set<Key>)
    ensures KeysDiffer(Kept(rows, seen))
  {
    if rows != [] {
      var key := KeyOf(rows[0].payload);
      var seen' := if key in seen then seen else seen + {key};
      KeptKeysDiffer(rows[1..], seen');
      KeptFrom(rows[1..], seen');
      var tail := Kept(rows[1..], seen');
      assert forall j :: 0 <= j < |tail| ==> tail[j] in tail;
    }
  }

  lemma KeptStrictlyAscending(sorted: seq<Row>)
    requires Ascending(sorted) && IdsDecide(sorted)
    ensures Ascends(Kept(sorted, {}), BY_ID)
  {
    KeptAscending(sorted, {});
    KeptKeysDiffer(sorted, {});
    var kept := Kept(sorted, {});
    forall i, j | 0 <= i < j < |kept|
      ensures Less(kept[i].id, kept[j].id)
    {
      KeptIsUnshadowed(sorted, kept[i]);
      KeptIsUnshadowed(sorted, kept[j]);
      assert AtMost(kept[i].id, kept[j].id);
    }
  }

  // ----- the main results -------------------------------------------------------------

  lemma SameRowsShadow(a: seq<Row>, b: seq<Row>)
    requires SameRows(a, b)
    ensures forall r :: Shadowed(a, r) <==> Shadowed(b, r)
    ensures IdsDecide(a) <==> IdsDecide(b)
  {
    forall r
      ensures Shadowed(a, r) <==> Shadowed(b, r)
    {
    }
  }

  /** The phases are exactly the rows that no row with the same occurrence key
      and a smaller id shadows, in increasing id order. */
  lemma PhasesAreSmallestIds(rows: seq<Row>)
    requires IdsDecide(rows)
    ensures Phases(rows) == Payloads(KeptRows(rows))
    ensures Ascends(KeptRows(rows), BY_ID)
    ensures forall r :: r in KeptRows(rows) <==> r in rows && !Shadowed(rows, r)
  {
    var sorted := SortById(rows);
    SortMembers(rows);
    SortAscending(rows);
    SameRowsShadow(sorted, rows);
    KeptStrictlyAscending(sorted);
    forall r
      ensures r in KeptRows(rows) <==> r in rows && !Shadowed(rows, r)
    {
      KeptIsUnshadowed(sorted, r);
    }
  }

  /** Reordering and replaying rows changes nothing. */
  lemma OnlyTheSetMatters(a: seq<Row>, b: seq<Row>)
    requires SameRows(a, b) && IdsDecide(a)
    ensures Phases(a) == Phases(b)
  {
    SameRowsShadow(a, b);
    PhasesAreSmallestIds(a);
    PhasesAreSmallestIds(b);
    ByIdOrders();
    AscendingIsUnique(KeptRows(a), KeptRows(b), BY_ID);
  }

  /** Anywhere in the list, a row whose key is held under a smaller id changes
      nothing; this needs no assumption on the ids. */
  lemma ShadowedRowChangesNothing(a: seq<Row>, row: Row, b: seq<Row>)
    requires Shadowed(a + b, row)
    ensures Phases(a + [row] + b) == Phases(a + b)
  {
    ByIdOrders();
    var front, back := SortAround(a, row, b, BY_ID);
    var r :| r in a + b && Less(r.id, row.id) && KeyOf(r.payload) == KeyOf(row.payload);
    assert BY_ID(r, row);
    SortMembers(a + b);
    assert r in SortById(a + b) && r !in back;
    assert r in front;
    KeptDropsSeen(front, row, back, {});
  }

  lemma {:induction false} KeptDropsSeen(front: seq<Row>, row: Row, back: seq<Row>, seen: set<Key>)
    requires KeyOf(row.payload) in seen || exists r :: r in front && KeyOf(r.payload) == KeyOf(row.payload)
    ensures Kept(front + [row] + back, seen) == Kept(front + back, seen)
    decreases |front|
  {
    if front == [] {
      assert front + [row] + back == [row] + back && front + back == back;
      assert ([row] + back)[1..] == back;
    } else {
      assert (front + [row] + back)[1..] == front[1..] + [row] + back && (front + back)[1..] == front[1..] + back;
      assert front == [front[0]] + front[1..];
      var key := KeyOf(front[0].payload);
      KeptDropsSeen(front[1..], row, back, if key in seen then seen else seen + {key});
    }
  }

  function LeadingBelow(sorted: seq<Row>, id: string): (front: seq<Row>)
    ensures front <= sorted
  {
    if sorted == [] || !Less(sorted[0].id, id) then []
    else [sorted[0]] + LeadingBelow(sorted[1..], id)
  }

  lemma {:induction false} LeadingBelowStops(sorted: seq<Row>, id: string)
    ensures var front := LeadingBelow(sorted, id);
            && (forall r :: r in front ==> Less(r.id, id))
            && (|front| < |sorted| ==> !Less(sorted[|front|].id, id))
  {
    if sorted != [] && Less(sorted[0].id, id) {
      LeadingBelowStops(sorted[1..], id);
    }
  }

  lemma InsertAfterSmaller(row: Row, sorted: seq<Row>)
    ensures var front := LeadingBelow(sorted, row.id);
            Insert(row, sorted, BY_ID) == front + ([row] + sorted[|front|..])
  {
    hide Insert, Less;
    var front := LeadingBelow(sorted, row.id);
    var back := sorted[|front|..];
    LeadingBelowStops(sorted, row.id);
    assert sorted == front + back;
    InsertHead(row, back, BY_ID);
    InsertBehind(row, front, back, BY_ID);
  }

  // ----- exactly when the order is irrelevant --------------------------------------------

  /** Every order of these rows has the same phases. */
  ghost predicate OrderIrrelevant(rows: seq<Row>) {
    forall a: seq<Row>, b: seq<Row> ::
      multiset(a) == multiset(rows) && multiset(b) == multiset(rows) ==> Phases(a) == Phases(b)
  }

  /** So has every listing of them, in any order and with any repetition. */
  ghost predicate ReplayIrrelevant(rows: seq<Row>) {
    forall a: seq<Row>, b: seq<Row> :: SameRows(a, rows) && SameRows(b, rows) ==> Phases(a) == Phases(b)
  }

  /** The order of these very rows is irrelevant exactly when no two different
      rows share an id and both survive, and then so is repeating them. */
  lemma OrderIrrelevantIff(rows: seq<Row>)
    ensures OrderIrrelevant(rows) <==> IdsDecide(rows)
    ensures ReplayIrrelevant(rows) <==> IdsDecide(rows)
  {
    if IdsDecide(rows) {
      forall a: seq<Row>, b: seq<Row> | SameRows(a, rows) && SameRows(b, rows)
        ensures Phases(a) == Phases(b)
      {
        SameRowsShadow(a, rows);
        OnlyTheSetMatters(a, b);
      }
    } else {
      var x, y :| x in rows && y in rows && x.id == y.id && !Shadowed(rows, x) && !Shadowed(rows, y) && x != y;
      OrderDecides(rows, x, y);
    }
    if ReplayIrrelevant(rows) {
      forall a: seq<Row>, b: seq<Row> | multiset(a) == multiset(rows) && multiset(b) == multiset(rows)
        ensures Phases(a) == Phases(b)
      {
        PermutedSameRows(a, rows);
        PermutedSameRows(b, rows);
      }
    }
  }

  lemma PermutedSameRows(a: seq<Row>, b: seq<Row>)
    requires multiset(a) == multiset(b)
    ensures SameRows(a, b)
  {
    assert forall r :: r in a <==> r in multiset(a);
    assert forall r :: r in b <==> r in multiset(b);
  }

  lemma TakeOut(rows: seq<Row>, x: Row) returns (rest: seq<Row>)
    requires x in rows
    ensures multiset(rows) == multiset{x} + multiset(rest)
    ensures forall r :: r in rest ==> r in rows
    ensures forall r :: r in rows && r != x ==> r in rest
  {
    var k :| 0 <= k < |rows| && rows[k] == x;
    rest := rows[..k] + rows[k + 1..];
    assert rows == rows[..k] + [x] + rows[k + 1..];
  }

  lemma TakeOutTwo(rows: seq<Row>, x: Row, y: Row) returns (rest: seq<Row>)
    requires x in rows && y in rows && x != y
    ensures multiset([x, y] + rest) == multiset([y, x] + rest) == multiset(rows)
    ensures forall r :: r in rest ==> r in rows
  {
    var others := TakeOut(rows, x);
    rest := TakeOut(others, y);
  }

  /** The same rows in two orders that differ. */
  lemma OrderDecides(rows: seq<Row>, x: Row, y: Row)
    requires x in rows && y in rows && x != y && x.id == y.id && !Shadowed(rows, x) && !Shadowed(rows, y)
    ensures !OrderIrrelevant(rows) && !ReplayIrrelevant(rows)
  {
    hide Phases, Below;
    var rest := TakeOutTwo(rows, x, y);
    var a, b := [x, y] + rest, [y, x] + rest;
    FrontDecides(rest, x, y);
    FrontDecides(rest, y, x);
    PermutedSameRows(a, rows);
    PermutedSameRows(b, rows);
    var n := |Kept(Below(rest, x.id), {})|;
    assert Phases(a)[n] == x.payload != y.payload == Phases(b)[n];
  }

  /** The sorted rows with a smaller id. */
  function Below(rows: seq<Row>, id: string): seq<Row> {
    LeadingBelow(SortById(rows), id)
  }

  /** With `x` listed before an equal id `y`, `x` is the first survivor with that
      id. */
  lemma FrontDecides(rows: seq<Row>, x: Row, y: Row)
    requires x.id == y.id && !Shadowed(rows, x)
    ensures var n := |Kept(Below(rows, x.id), {})|;
            n < |Phases([x, y] + rows)| && Phases([x, y] + rows)[n] == x.payload
  {
    var front := Below(rows, x.id);
    var back := SortPair(rows, x, y);
    FrontKeysDiffer(rows, x);
    KeptConcat(front, [x] + ([y] + back), {});
    assert Kept([x] + ([y] + back), KeysOf(front))[0] == x;
  }

  lemma FrontKeysDiffer(rows: seq<Row>, x: Row)
    requires !Shadowed(rows, x)
    ensures KeyOf(x.payload) !in KeysOf(Below(rows, x.id))
  {
    var front := Below(rows, x.id);
    LeadingBelowStops(SortById(rows), x.id);
    SortMembers(rows);
    forall r | r in front
      ensures KeyOf(r.payload) != KeyOf(x.payload)
    {
      assert r in SortById(rows);
    }
  }

  lemma SortPair(rows: seq<Row>, x: Row, y: Row) returns (back: seq<Row>)
    requires x.id == y.id
    ensures SortById([x, y] + rows) == Below(rows, x.id) + ([x] + ([y] + back))
  {
    hide Insert, SortById, LeadingBelow;
    var sorted := SortById(rows);
    var front := LeadingBelow(sorted, x.id);
    back := sorted[|front|..];
    SortTwo(rows, x, y);
    InsertAfterSmaller(y, sorted);
    LeadingBelowStops(sorted, x.id);
    InsertBehind(x, front, [y] + back, BY_ID);
    LessIrreflexive(x.id);
    InsertHead(x, [y] + back, BY_ID);
  }

  lemma SortTwo(rows: seq<Row>, x: Row, y: Row)
    ensures SortById([x, y] + rows) == Insert(x, Insert(y, SortById(rows), BY_ID), BY_ID)
  {
    assert ([x, y] + rows)[1..] == [y] + rows && ([y] + rows)[1..] == rows;
    assert SortById([y] + rows) == Insert(y, SortById(rows), BY_ID);
  }

  function KeysOf(rows: seq<Row>): set<Key> {
    set r | r in rows :: KeyOf(r.payload)
  }

  lemma {:induction false} KeptConcat(a: seq<Row>, b: seq<Row>, seen: set<Key>)
    ensures Kept(a + b, seen) == Kept(a, seen) + Kept(b, seen + KeysOf(a))
    decreases |a|
  {
    if a == [] {
      assert a + b == b && seen + KeysOf(a) == seen;
    } else {
      var key := KeyOf(a[0].payload);
      var seen' := if key in seen then seen else seen + {key};
      assert (a + b)[1..] == a[1..] + b;
      assert a == [a[0]] + a[1..];
      assert seen' + KeysOf(a[1..]) == seen + KeysOf(a);
      KeptConcat(a[1..], b, seen');
    }
  }

  // ----- the summary ---------------------------------------------------------------------

  /** What `rk status` reports of a ticket. */
  datatype Summary = Summary(
    task: string,
    phases: seq<Payload>,
    taskToMainMs: Option<int>,
    inFlight: bool,
    terminalReason: Option<string>,
    target: Option<string>,
    candidate: Option<string>,
    reviewRounds: nat,
    reworkRounds: nat,
    reworkAmplification: Option<real>,
    proofTotal: nat,
    proofReused: nat,
    humanMs: Option<int>,
    llmMs: Option<int>)

  function CountPhase(phases: seq<Payload>, phase: string): nat {
    if phases == [] then 0
    else CountPhase(phases[..|phases| - 1], phase) + if phases[|phases| - 1].phase == Some(phase) then 1 else 0
  }

  function Latest(phases: seq<Payload>, phase: string): Option<Payload> {
    if phases == [] then None
    else if phases[|phases| - 1].phase == Some(phase) then Some(phases[|phases| - 1])
    else Latest(phases[..|phases| - 1], phase)
  }

  function LastTarget(phases: seq<Payload>): Option<string> {
    if phases == [] then None
    else if phases[|phases| - 1].target.Some? then phases[|phases| - 1].target
    else LastTarget(phases[..|phases| - 1])
  }

  function LastCandidate(phases: seq<Payload>): Option<string> {
    if phases == [] then None
    else if phases[|phases| - 1].candidate.Some? then phases[|phases| - 1].candidate
    else LastCandidate(phases[..|phases| - 1])
  }

  function CountProofs(phases: seq<Payload>): nat {
    if phases == [] then 0
    else CountProofs(phases[..|phases| - 1]) + if phases[|phases| - 1].proofKind.Some? then 1 else 0
  }

  function CountReused(phases: seq<Payload>): nat {
    if phases == [] then 0
    else CountReused(phases[..|phases| - 1]) + if phases[|phases| - 1].proofReused then 1 else 0
  }

  /** The time of one authority: nothing, not zero, when no phase has any. */
  function TimeOf(phases: seq<Payload>, authority: string): Option<int> {
    if phases == [] then None
    else
      var before, last := TimeOf(phases[..|phases| - 1], authority), phases[|phases| - 1];
      if last.durationMs.Some? && last.authority == Some(authority)
      then Some(GetOr(before, 0) + last.durationMs.value) else before
  }

  function StartOf(phases: seq<Payload>): Option<Stamp> {
    match Latest(phases, "ticket_ready")
    case Some(p) => if p.queuedAt.Some? then p.queuedAt else p.startedAt
    case None => None
  }

  function EndOf(phases: seq<Payload>): Option<Stamp> {
    match Latest(phases, "merge") case Some(p) => p.endedAt case None => None
  }

  function Elapsed(start: Option<Stamp>, end: Option<Stamp>): Option<int> {
    if start.Some? && start.value.At? && end.Some? && end.value.At?
    then Some(end.value.ms - start.value.ms) else None
  }

  function ReasonOf(phases: seq<Payload>): Option<string> {
    var held := Latest(phases, "attention_hold");
    if held.Some? && held.value.terminalReason.Some? then held.value.terminalReason
    else if phases == [] then None
    else phases[|phases| - 1].terminalReason
  }

  function Summarise(task: string, phases: seq<Payload>): Summary {
    var reviews, reworks := CountPhase(phases, "semantic_review"), CountPhase(phases, "rework");
    Summary(task, phases, Elapsed(StartOf(phases), EndOf(phases)), Latest(phases, "merge").None?,
            ReasonOf(phases), LastTarget(phases), LastCandidate(phases), reviews, reworks,
            if reviews > 0 then Some(reworks as real / reviews as real) else None,
            CountProofs(phases), CountReused(phases), TimeOf(phases, "human"), TimeOf(phases, "llm"))
  }

  /** `build_critical_path`: sort, then a loop that keeps first occurrences, then
      a loop that totals them. */
  method BuildCriticalPath(task: string, tuples: seq<Row>) returns (cp: Summary)
    ensures cp == Summarise(task, Phases(tuples))
    ensures IdsDecide(tuples) ==>
              forall again: seq<Row> :: SameRows(again, tuples) ==> cp == Summarise(task, Phases(again))
  {
    var phases := KeepFirst(SortById(tuples));
    var human, llm := AuthorityTime(phases);
    var reviews, reworks := CountPhase(phases, "semantic_review"), CountPhase(phases, "rework");
    var merge := Latest(phases, "merge");
    cp := Summary(task, phases, Elapsed(StartOf(phases), EndOf(phases)), merge.None?,
                  ReasonOf(phases), LastTarget(phases), LastCandidate(phases), reviews, reworks,
                  if reviews > 0 then Some(reworks as real / reviews as real) else None,
                  CountProofs(phases), CountReused(phases), human, llm);
    if IdsDecide(tuples) {
      forall again: seq<Row> | SameRows(again, tuples)
        ensures Phases(again) == Phases(tuples)
      {
        OnlyTheSetMatters(tuples, again);
      }
    }
  }

  method KeepFirst(rows: seq<Row>) returns (phases: seq<Payload>)
    ensures phases == Payloads(Kept(rows, {}))
  {
    hide KeyOf;
    var seen: set<Key> := {};
    phases := [];
    for i := 0 to |rows|
      invariant Payloads(Kept(rows, {})) == phases + Payloads(Kept(rows[i..], seen))
    {
      var p := rows[i].payload;
      KeptStep(rows, i, seen);
      if KeyOf(p) in seen {
        continue;
      }
      seen := seen + {KeyOf(p)};
      phases := phases + [p];
    }
  }

  lemma KeptStep(rows: seq<Row>, i: nat, seen: set<Key>)
    requires i < |rows|
    ensures var key := KeyOf(rows[i].payload);
            Payloads(Kept(rows[i..], seen)) ==
            if key in seen then Payloads(Kept(rows[i + 1..], seen))
            else [rows[i].payload] + Payloads(Kept(rows[i + 1..], seen + {key}))
  {
    assert rows[i..][1..] == rows[i + 1..];
  }

  method AuthorityTime(phases: seq<Payload>) returns (human: Option<int>, llm: Option<int>)
    ensures human == TimeOf(phases, "human") && llm == TimeOf(phases, "llm")
  {
    var humanTotal, llmTotal := 0, 0;
    var hasHuman, hasLlm := false, false;
    for i := 0 to |phases|
      invariant TimeOf(phases[..i], "human") == if hasHuman then Some(humanTotal) else None
      invariant TimeOf(phases[..i], "llm") == if hasLlm then Some(llmTotal) else None
      invariant (!hasHuman ==> humanTotal == 0) && (!hasLlm ==> llmTotal == 0)
    {
      var p := phases[i];
      assert phases[..i + 1][..i] == phases[..i];
      assert "human" != "llm";
      if p.durationMs.None? {
        continue;
      }
      if p.authority == Some("human") {
        humanTotal, hasHuman := humanTotal + p.durationMs.value, true;
      } else if p.authority == Some("llm") {
        llmTotal, hasLlm := llmTotal + p.durationMs.value, true;
      }
    }
    assert phases[..|phases|] == phases;
    human := if hasHuman then Some(humanTotal) else None;
    llm := if hasLlm then Some(llmTotal) else None;
  }

  /** A replay or a late duplicate changes nothing in the report. */
  lemma ReplayKeepsSummary(task: string, a: seq<Row>, row: Row, b: seq<Row>)
    requires Shadowed(a + b, row) || (IdsDecide(a + b) && row in a + b)
    ensures Summarise(task, Phases(a + [row] + b)) == Summarise(task, Phases(a + b))
  {
    if Shadowed(a + b, row) {
      ShadowedRowChangesNothing(a, row, b);
    } else {
      OnlyTheSetMatters(a + b, a + [row] + b);
    }
  }

  // ----- what the summary means, by places in the phases ------------------------------------

  /** The same occurrence: equal phase, attempt, target, candidate, lane and key,
      where a missing phase reads "?" and a missing attempt reads 1. */
  predicate SameOccurrence(p: Payload, q: Payload) {
    && (p.phase == q.phase || (p.phase.None? && q.phase == Some("?")) || (q.phase.None? && p.phase == Some("?")))
    && (p.attempt == q.attempt || (p.attempt.None? && q.attempt == Some(1))
       || (q.attempt.None? && p.attempt == Some(1)))
    && p.target == q.target && p.candidate == q.candidate && p.lane == q.lane && p.occurrenceKey == q.occurrenceKey
  }

  lemma KeysMean(p: Payload, q: Payload)
    ensures KeyOf(p) == KeyOf(q) <==> SameOccurrence(p, q)
  {
  }

  /** A row survives exactly when no row of the same occurrence has a smaller id. */
  lemma SurvivorsMean(rows: seq<Row>, r: Row)
    requires forall x, y :: x in rows && y in rows && x.id == y.id ==> x == y
    ensures r in KeptRows(rows) <==>
              r in rows && forall x :: x in rows && SameOccurrence(x.payload, r.payload) ==> !Less(x.id, r.id)
  {
    PhasesAreSmallestIds(rows);
    forall x: Row
      ensures KeyOf(x.payload) == KeyOf(r.payload) <==> SameOccurrence(x.payload, r.payload)
    {
      KeysMean(x.payload, r.payload);
    }
  }

  /** The last phase of this name. */
  predicate IsLast(phases: seq<Payload>, name: string, i: nat) {
    i < |phases| && phases[i].phase == Some(name) && forall j :: i < j < |phases| ==> phases[j].phase != Some(name)
  }

  lemma LastOfMore(before: seq<Payload>, p: Payload, name: string, i: nat)
    ensures IsLast(before + [p], name, i) <==>
              if p.phase == Some(name) then i == |before| else IsLast(before, name, i)
  {
    var more := before + [p];
    assert forall j :: 0 <= j < |before| ==> more[j] == before[j];
    assert more[|before|] == p;
  }

  lemma {:induction false} LatestMeans(phases: seq<Payload>, name: string)
    ensures Latest(phases, name).None? <==> forall i :: 0 <= i < |phases| ==> phases[i].phase != Some(name)
    ensures Latest(phases, name).Some? ==>
            exists i: nat :: IsLast(phases, name, i) && Latest(phases, name).value == phases[i]
    ensures forall i: nat :: IsLast(phases, name, i) ==> i < |phases| && Latest(phases, name) == Some(phases[i])
  {
    if phases != [] {
      var n := |phases| - 1;
      LatestMeans(phases[..n], name);
      assert phases == phases[..n] + [phases[n]];
      assert forall i :: 0 <= i < n ==> phases[..n][i] == phases[i];
      forall i: nat
        ensures IsLast(phases, name, i) <==>
                if phases[n].phase == Some(name) then i == n else IsLast(phases[..n], name, i)
      {
        LastOfMore(phases[..n], phases[n], name, i);
      }
      hide IsLast;
      assert phases[n].phase == Some(name) ==> IsLast(phases, name, n);
    }
  }

  /** `d` milliseconds from when a ready ticket was queued, or else started, to the
      end of a merge, all of them readable. */
  predicate Took(ready: Payload, merge: Payload, d: int) {
    var start := if ready.queuedAt.Some? then ready.queuedAt else ready.startedAt;
    && start.Some? && start.value.At? && merge.endedAt.Some? && merge.endedAt.value.At?
    && d == merge.endedAt.value.ms - start.value.ms
  }

  /** From the last "ticket_ready" to the last "merge". */
  predicate Spans(phases: seq<Payload>, r: nat, m: nat, d: int) {
    IsLast(phases, "ticket_ready", r) && IsLast(phases, "merge", m) && Took(phases[r], phases[m], d)
  }

  lemma ElapsedMeans(phases: seq<Payload>, d: int)
    ensures Elapsed(StartOf(phases), EndOf(phases)) == Some(d) <==>
              var ready, merge := Latest(phases, "ticket_ready"), Latest(phases, "merge");
              ready.Some? && merge.Some? && Took(ready.value, merge.value, d)
  {
    hide Latest;
  }

  /** The time to main is that span and nothing else; a ticket without a "merge" is
      in flight. */
  lemma TaskToMainMeans(task: string, phases: seq<Payload>, d: int)
    ensures Summarise(task, phases).taskToMainMs == Some(d) <==> exists r: nat, m: nat :: Spans(phases, r, m, d)
    ensures Summarise(task, phases).inFlight <==> forall i :: 0 <= i < |phases| ==> phases[i].phase != Some("merge")
  {
    hide Latest, IsLast, Took, StartOf, EndOf, Elapsed;
    LatestMeans(phases, "ticket_ready");
    LatestMeans(phases, "merge");
    ElapsedMeans(phases, d);
    if Elapsed(StartOf(phases), EndOf(phases)) == Some(d) {
      var r: nat :| IsLast(phases, "ticket_ready", r) && Latest(phases, "ticket_ready").value == phases[r];
      var m: nat :| IsLast(phases, "merge", m) && Latest(phases, "merge").value == phases[m];
      assert Spans(phases, r, m, d);
    }
  }

  /** The reason of the last attention hold that gives one, otherwise that of the
      last phase. */
  lemma ReasonMeans(task: string, phases: seq<Payload>)
    ensures var reason := Summarise(task, phases).terminalReason;
            && (forall h: nat :: IsLast(phases, "attention_hold", h) && phases[h].terminalReason.Some? ==>
                  reason == phases[h].terminalReason)
            && ((forall h: nat :: IsLast(phases, "attention_hold", h) ==> phases[h].terminalReason.None?) ==>
                  reason == if |phases| == 0 then None else phases[|phases| - 1].terminalReason)
  {
    hide Latest;
    LatestMeans(phases, "attention_hold");
  }

  /** The last phase with a value has this one. */
  predicate LastWith(phases: seq<Payload>, field: Payload -> Option<string>, i: nat, value: string) {
    && i < |phases| && field(phases[i]) == Some(value)
    && forall j :: i < j < |phases| ==> field(phases[j]).None?
  }

  lemma LastWithMore(before: seq<Payload>, p: Payload, field: Payload -> Option<string>, i: nat, value: string)
    ensures LastWith(before + [p], field, i, value) <==>
              if field(p).Some? then i == |before| && field(p) == Some(value) else LastWith(before, field, i, value)
  {
    var more := before + [p];
    assert forall j :: 0 <= j < |before| ==> more[j] == before[j];
    assert more[|before|] == p;
  }

  const TARGET: Payload -> Option<string> := (p: Payload) => p.target
  const CANDIDATE: Payload -> Option<string> := (p: Payload) => p.candidate

  /** The target and the candidate are those of the last phases that have one. */
  lemma TargetMeans(task: string, phases: seq<Payload>, value: string)
    ensures Summarise(task, phases).target == Some(value) <==> exists i: nat :: LastWith(phases, TARGET, i, value)
    ensures Summarise(task, phases).candidate == Some(value) <==> exists i: nat :: LastWith(phases, CANDIDATE, i, value)
  {
    hide LastTarget, LastCandidate, LastWith;
    LastTargetMeans(phases, value);
    LastCandidateMeans(phases, value);
  }

  lemma {:induction false} LastTargetMeans(phases: seq<Payload>, value: string)
    ensures LastTarget(phases) == Some(value) <==> exists i: nat :: LastWith(phases, TARGET, i, value)
  {
    if phases != [] {
      var n := |phases| - 1;
      LastTargetMeans(phases[..n], value);
      assert phases == phases[..n] + [phases[n]];
      forall i: nat
        ensures LastWith(phases, TARGET, i, value) <==>
                  if phases[n].target.Some? then i == n && phases[n].target == Some(value)
                  else LastWith(phases[..n], TARGET, i, value)
      {
        LastWithMore(phases[..n], phases[n], TARGET, i, value);
      }
      hide LastWith;
      assert phases[n].target == Some(value) ==> LastWith(phases, TARGET, n, value);
    }
  }

  lemma {:induction false} LastCandidateMeans(phases: seq<Payload>, value: string)
    ensures LastCandidate(phases) == Some(value) <==> exists i: nat :: LastWith(phases, CANDIDATE, i, value)
  {
    if phases != [] {
      var n := |phases| - 1;
      LastCandidateMeans(phases[..n], value);
      assert phases == phases[..n] + [phases[n]];
      forall i: nat
        ensures LastWith(phases, CANDIDATE, i, value) <==>
                  if phases[n].candidate.Some? then i == n && phases[n].candidate == Some(value)
                  else LastWith(phases[..n], CANDIDATE, i, value)
      {
        LastWithMore(phases[..n], phases[n], CANDIDATE, i, value);
      }
      hide LastWith;
      assert phases[n].candidate == Some(value) ==> LastWith(phases, CANDIDATE, n, value);
    }
  }

  /** The places among the first `n` whose phase satisfies `f`. */
  ghost function Places(phases: seq<Payload>, f: Payload -> bool, n: nat): set<int>
    requires n <= |phases|
  {
    set i | 0 <= i < n && f(phases[i])
  }

  lemma PlacesGrow(phases: seq<Payload>, f: Payload -> bool, n: nat)
    requires n < |phases|
    ensures |Places(phases, f, n + 1)| == |Places(phases, f, n)| + if f(phases[n]) then 1 else 0
  {
    var before, after := Places(phases, f, n), Places(phases, f, n + 1);
    if f(phases[n]) {
      assert after == before + {n};
    } else {
      assert after == before;
    }
  }

  lemma {:induction false} CountsArePlaces(phases: seq<Payload>, name: string, n: nat)
    requires n <= |phases|
    ensures CountPhase(phases[..n], name) == |Places(phases, (p: Payload) => p.phase == Some(name), n)|
    ensures CountProofs(phases[..n]) == |Places(phases, (p: Payload) => p.proofKind.Some?, n)|
    ensures CountReused(phases[..n]) == |Places(phases, (p: Payload) => p.proofReused, n)|
  {
    if n > 0 {
      hide Places;
      CountsArePlaces(phases, name, n - 1);
      assert phases[..n][..n - 1] == phases[..n - 1];
      PlacesGrow(phases, (p: Payload) => p.phase == Some(name), n - 1);
      PlacesGrow(phases, (p: Payload) => p.proofKind.Some?, n - 1);
      PlacesGrow(phases, (p: Payload) => p.proofReused, n - 1);
    }
  }

  /** The counts are numbers of phases, and the amplification is the rework per
      review, absent without a review. */
  lemma CountsMean(task: string, phases: seq<Payload>)
    ensures var cp, n := Summarise(task, phases), |phases|;
            && cp.reviewRounds == |Places(phases, (p: Payload) => p.phase == Some("semantic_review"), n)|
            && cp.reworkRounds == |Places(phases, (p: Payload) => p.phase == Some("rework"), n)|
            && cp.proofTotal == |Places(phases, (p: Payload) => p.proofKind.Some?, n)|
            && cp.proofReused == |Places(phases, (p: Payload) => p.proofReused, n)|
            && (cp.reworkAmplification.None? <==> cp.reviewRounds == 0)
            && (cp.reworkAmplification.Some? ==>
                  cp.reworkAmplification.value * cp.reviewRounds as real == cp.reworkRounds as real)
  {
    hide Places, CountPhase, CountProofs, CountReused;
    CountsArePlaces(phases, "semantic_review", |phases|);
    CountsArePlaces(phases, "rework", |phases|);
    assert phases[..|phases|] == phases;
    Quotient(Summarise(task, phases).reworkRounds, Summarise(task, phases).reviewRounds);
  }

  lemma Quotient(part: nat, whole: nat)
    ensures whole > 0 ==> part as real / whole as real * whole as real == part as real
  {
  }

  /** The durations of one authority among the first `n` phases. */
  function Spent(phases: seq<Payload>, authority: string, n: nat): int
    requires n <= |phases|
  {
    if n == 0 then 0
    else
      var p := phases[n - 1];
      Spent(phases, authority, n - 1)
      + if p.authority == Some(authority) && p.durationMs.Some? then p.durationMs.value else 0
  }

  lemma {:induction false} TimesMean(phases: seq<Payload>, authority: string, n: nat)
    requires n <= |phases|
    ensures TimeOf(phases[..n], authority).None? <==>
              forall i :: 0 <= i < n ==> phases[i].authority != Some(authority) || phases[i].durationMs.None?
    ensures TimeOf(phases[..n], authority).Some? ==> TimeOf(phases[..n], authority).value == Spent(phases, authority, n)
    ensures TimeOf(phases[..n], authority).None? ==> Spent(phases, authority, n) == 0
  {
    if n > 0 {
      TimesMean(phases, authority, n - 1);
      assert phases[..n][..n - 1] == phases[..n - 1];
    }
  }

  /** Human and model time are what the phases of that authority took together,
      and absent, not zero, when none has a duration. */
  lemma AuthorityTimesMean(task: string, phases: seq<Payload>)
    ensures var cp, n := Summarise(task, phases), |phases|;
            && (cp.humanMs.None? <==>
               forall i :: 0 <= i < n ==> phases[i].authority != Some("human") || phases[i].durationMs.None?)
            && (cp.humanMs.Some? ==> cp.humanMs.value == Spent(phases, "human", n))
            && (cp.llmMs.None? <==> forall i :: 0 <= i < n ==>
               phases[i].authority != Some("llm") || phases[i].durationMs.None?)
            && (cp.llmMs.Some? ==> cp.llmMs.value == Spent(phases, "llm", n))
  {
    hide Spent, TimeOf;
    TimesMean(phases, "human", |phases|);
    TimesMean(phases, "llm", |phases|);
    assert phases[..|phases|] == phases;
  }
}
