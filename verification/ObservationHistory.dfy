/** Histories of the observation log: any interleaving of opens, appends, I/O
    failures, crashes at any byte, and checkpoints lost or rolled back.  The
    absorbed samples are a plain list; every reachable run directory and every
    live collector is shown to be a function of that list. */
module ObservationHistory {
  import opened Basics
  import opened ObservationStore

  // ----- the collector's state as a function of the absorbed samples -------

  function LogOf(host: Host, samples: seq<Sample>): Bytes {
    if samples == [] then []
    else LogOf(host, samples[..|samples| - 1]) + Record(host, samples[|samples| - 1])
  }

  /** The first sample of the latest unbroken run of readiness of `t`. */
  function StreakStart(samples: seq<Sample>, t: string): (i: nat)
    ensures i <= |samples|
    ensures forall j :: i <= j < |samples| ==> t in samples[j].ready
    ensures 0 < i ==> t !in samples[i - 1].ready
  {
    if samples == [] || t !in samples[|samples| - 1].ready then |samples|
    else
      assert forall j :: 0 <= j < |samples| - 1 ==> samples[..|samples| - 1][j] == samples[j];
      StreakStart(samples[..|samples| - 1], t)
  }

  function ReadySince(samples: seq<Sample>): map<string, Time> {
    if samples == [] then map[]
    else map t | t in samples[|samples| - 1].ready :: samples[StreakStart(samples, t)].observedAt
  }

  function GreatestCursor(samples: seq<Sample>): Option<string> {
    if samples == [] then None
    else LaterCursor(GreatestCursor(samples[..|samples| - 1]), samples[|samples| - 1].eventCursor)
  }

  function ProgressOf(env: Env, samples: seq<Sample>): Progress {
    if samples == [] then ""
    else env.host.advance(env.evaluator, env.manifest, ProgressOf(env, samples[..|samples| - 1]),
        samples[|samples| - 1])
  }

  function StateOf(env: Env, samples: seq<Sample>): Checkpoint {
    if samples == [] then Initial(env)
    else
      var last := samples[|samples| - 1];
      Checkpoint(env.host.digest(env.manifest), env.evaluator,
                 |LogOf(env.host, samples)|, |LogOf(env.host, samples[..|samples| - 1])|,
                 env.host.digest(Record(env.host, last)), |samples|, Some(last.observedAt),
                 GreatestCursor(samples), ReadySince(samples), ProgressOf(env, samples))
  }

  /** The cursor kept is the greatest one any sample ever carried. */
  lemma {:induction false} CursorIsGreatest(samples: seq<Sample>)
    ensures GreatestCursor(samples).None? ==> forall i :: 0 <= i < |samples| ==> samples[i].eventCursor.None?
    ensures GreatestCursor(samples).Some? ==>
              && (exists i :: 0 <= i < |samples| && samples[i].eventCursor == GreatestCursor(samples))
              && forall i :: 0 <= i < |samples| && samples[i].eventCursor.Some?
                   ==> AtMost(samples[i].eventCursor.value, GreatestCursor(samples).value)
  {
    if samples != [] {
      var n := |samples| - 1;
      var before := samples[..n];
      CursorIsGreatest(before);
      assert forall i :: 0 <= i < n ==> before[i] == samples[i];
      var kept, last := GreatestCursor(before), samples[n].eventCursor;
      if kept.Some? && last.Some? {
        LessTotal(kept.value, last.value);
        if Less(kept.value, last.value) {
          forall i | 0 <= i < n && samples[i].eventCursor.Some?
            ensures AtMost(samples[i].eventCursor.value, last.value)
          {
            var c := before[i].eventCursor.value;
            if c != kept.value {
              LessTransitive(c, kept.value, last.value);
            }
          }
        }
      }
      if GreatestCursor(samples) == last {
        assert samples[n].eventCursor == GreatestCursor(samples);
      }
    }
  }

  /** A ticket still ready keeps its start; one that just became ready starts now. */
  lemma ReadyExtends(samples: seq<Sample>, s: Sample)
    ensures ReadySince(samples + [s]) ==
            map t | t in s.ready :: if t in ReadySince(samples) then ReadySince(samples)[t] else s.observedAt
  {
    var more := samples + [s];
    assert more[..|samples|] == samples;
    forall t | t in s.ready
      ensures ReadySince(more)[t] == if t in ReadySince(samples) then ReadySince(samples)[t] else s.observedAt
    {
      assert StreakStart(more, t) == StreakStart(samples, t);
    }
  }

  lemma LogExtends(host: Host, samples: seq<Sample>, s: Sample)
    ensures LogOf(host, samples + [s]) == LogOf(host, samples) + Record(host, s)
  {
    assert (samples + [s])[..|samples|] == samples;
  }

  lemma StateOffset(env: Env, samples: seq<Sample>)
    ensures StateOf(env, samples).offset == |LogOf(env.host, samples)|
    ensures StateOf(env, samples).sequence == |samples|
  {
  }

  lemma AbsorbExtends(env: Env, samples: seq<Sample>, s: Sample)
    requires s.sequence == |samples| + 1
    ensures StateOf(env, samples + [s]) == Absorb(env, StateOf(env, samples), s, Record(env.host, s))
  {
    var more := samples + [s];
    assert more[..|samples|] == samples && more[|samples|] == s;
    ReadyExtends(samples, s);
    LogExtends(env.host, samples, s);
    StateOffset(env, samples);
    var st := StateOf(env, samples);
    assert st.readySince == ReadySince(samples);
    assert st.progress == ProgressOf(env, samples) && st.eventCursor == GreatestCursor(samples);
    assert ProgressOf(env, more) == env.host.advance(env.evaluator, env.manifest, ProgressOf(env, samples), s);
    assert GreatestCursor(more) == LaterCursor(GreatestCursor(samples), s.eventCursor);
  }

  // ----- which logs stand for which samples --------------------------------

  ghost predicate Numbered(host: Host, samples: seq<Sample>) {
    forall i :: 0 <= i < |samples| ==> Sound(host, samples[i]) && samples[i].sequence == i + 1
  }

  /** `log` holds exactly these samples: whole records and then bytes that are
      no sample, or every record but for the last newline. */
  ghost predicate Holds(host: Host, samples: seq<Sample>, log: Bytes) {
    var whole := LogOf(host, samples);
    || (whole <= log && NEWLINE !in log[|whole|..] && host.parse(log[|whole|..]).None?)
    || (samples != [] && log + [NEWLINE] == whole)
  }

  lemma {:induction false} LogEndsLine(host: Host, samples: seq<Sample>)
    ensures Boundary(LogOf(host, samples), |LogOf(host, samples)|)
    ensures samples != [] ==> EndsLine(LogOf(host, samples))
  {
  }

  /** Earlier records are a prefix, and every record has at least two bytes. */
  lemma {:induction false} LogPrefix(host: Host, samples: seq<Sample>, k: nat)
    requires Lawful(host) && Numbered(host, samples) && k <= |samples|
    ensures LogOf(host, samples[..k]) <= LogOf(host, samples)
    ensures k < |samples| ==> |LogOf(host, samples[..k])| + 2 <= |LogOf(host, samples)|
    decreases |samples|
  {
    hide Lawful, Sound;
    if k == |samples| {
      assert samples[..k] == samples;
    } else {
      var n := |samples| - 1;
      LogPrefix(host, samples[..n], k);
      assert samples[..n][..k] == samples[..k];
      assert Sound(host, samples[n]);
      RecordLength(host, samples[n]);
    }
  }

  lemma RecordLength(host: Host, s: Sample)
    requires Lawful(host) && Sound(host, s)
    ensures |Record(host, s)| >= 2
  {
    assert IsBlank([]);
    assert host.serialise(s) != [];
  }

  /** Replaying the records of a numbered history gives its state. */
  lemma {:induction false} ReplayGivesState(env: Env, samples: seq<Sample>, log: Bytes)
    requires Lawful(env.host) && Numbered(env.host, samples) && LogOf(env.host, samples) <= log
    ensures Summarises(env, log, StateOf(env, samples))
    ensures StateOf(env, samples).offset == |LogOf(env.host, samples)|
    decreases |samples|
  {
    hide ReplayTo, StateOf, Summarises;
    StateOffset(env, samples);
    if samples == [] {
      ReplayNothing(env, log);
    } else {
      var n := |samples| - 1;
      var whole := LogOf(env.host, samples);
      ReplayGivesState(env, samples[..n], whole);
      ReplayLastRecord(env, samples[..n], samples[n], whole);
      assert samples == samples[..n] + [samples[n]];
      SummaryAgrees(env, whole, log, StateOf(env, samples));
    }
  }

  lemma SummaryAgrees(env: Env, whole: Bytes, log: Bytes, st: Checkpoint)
    requires whole <= log && st.offset == |whole| && Summarises(env, whole, st)
    ensures Summarises(env, log, st)
  {
    hide ReplayTo;
    assert whole[..|whole|] == log[..|whole|];
    ReplayAgrees(env, whole, log, Initial(env), |whole|);
    if whole != [] {
      assert log[|whole| - 1] == whole[|whole| - 1];
    }
  }

  lemma ReplayLastRecord(env: Env, samples: seq<Sample>, s: Sample, log: Bytes)
    requires Lawful(env.host) && Sound(env.host, s) && s.sequence == |samples| + 1
    requires log == LogOf(env.host, samples) + Record(env.host, s)
    requires Summarises(env, log, StateOf(env, samples))
    ensures Summarises(env, log, StateOf(env, samples + [s]))
  {
    hide ReplayTo, StateOf, LogOf, LineEnd;
    var before, record := LogOf(env.host, samples), Record(env.host, s);
    var st := StateOf(env, samples);
    StateOffset(env, samples);
    AbsorbExtends(env, samples, s);
    assert log[|before|..] == record;
    assert StepLine(env, st, record) == Ok(Absorb(env, st, s, record)) by {
      assert env.host.parse(record) == Some(s);
    }
    ReplayOneMore(env, log, Initial(env), |before|);
    LogExtends(env.host, samples, s);
    StateOffset(env, samples + [s]);
  }

  lemma ReplayNothing(env: Env, log: Bytes)
    ensures Summarises(env, log, StateOf(env, []))
  {
  }

  // ----- the system and its steps -------------------------------------------

  datatype Collector = Collector(env: Env, state: Checkpoint)

  /** `issued` is every checkpoint any collector ever wrote here. */
  datatype Sys = Sys(disk: Disk, live: Option<Collector>, issued: set<Checkpoint>)

  datatype Step =
    | OpenRun(env: Env)
    | CrashInOpen(env: Env, k: nat, torn: nat)
    | AppendSample(s: Sample)
    | FailInAppend(s: Sample, k: nat, torn: nat)   // an I/O error: the collector lives on
    | CrashInAppend(s: Sample, k: nat, torn: nat)
    | Exit
    | LoseCheckpoint
    | RestoreCheckpoint(c: Checkpoint)

  const FRESH := Sys(Disk([], None, map[]), None, {})

  function Stored(writes: seq<Write>, k: nat): set<Checkpoint>
    requires k <= |writes|
  {
    set i | 0 <= i < k && writes[i].ReplaceCheckpoint? :: writes[i].state
  }

  ghost predicate Enabled(host: Host, sys: Sys, step: Step) {
    match step
    case OpenRun(env) => sys.live.None? && env.host == host
    case CrashInOpen(env, k, _) => sys.live.None? && env.host == host && k <= |Open(env, sys.disk).writes|
    case AppendSample(s) => sys.live.Some? && Sound(host, s)
    case FailInAppend(s, k, _) =>
      sys.live.Some? && Sound(host, s) && k < |Append(sys.live.value.env, sys.disk, sys.live.value.state, s).writes|
    case CrashInAppend(s, k, _) =>
      sys.live.Some? && Sound(host, s) && k <= |Append(sys.live.value.env, sys.disk, sys.live.value.state, s).writes|
    case Exit => true
    case LoseCheckpoint => true
    case RestoreCheckpoint(c) => c in sys.issued
  }

  function Next(host: Host, sys: Sys, step: Step): Sys
    requires Enabled(host, sys, step)
  {
    match step
    case OpenRun(env) =>
      var open := Open(env, sys.disk);
      Sys(ApplyAll(sys.disk, open.writes),
          if open.result.Ok? then Some(Collector(env, open.result.value)) else None,
          sys.issued + Stored(open.writes, |open.writes|))
    case CrashInOpen(env, k, torn) =>
      var writes := Open(env, sys.disk).writes;
      Sys(CrashAt(sys.disk, writes, k, torn), None, sys.issued + Stored(writes, k))
    case AppendSample(s) =>
      var c := sys.live.value;
      var append := Append(c.env, sys.disk, c.state, s);
      Sys(ApplyAll(sys.disk, append.writes),
          Some(if append.result.Ok? then Collector(c.env, append.result.value) else c),
          sys.issued + Stored(append.writes, |append.writes|))
    case FailInAppend(s, k, torn) =>
      var c := sys.live.value;
      var append := Append(c.env, sys.disk, c.state, s);
      Sys(CrashAt(sys.disk, append.writes, k, torn),
          Some(if k == 1 then Collector(c.env, append.result.value) else c),
          sys.issued + Stored(append.writes, k))
    case CrashInAppend(s, k, torn) =>
      var c := sys.live.value;
      var append := Append(c.env, sys.disk, c.state, s);
      Sys(CrashAt(sys.disk, append.writes, k, torn), None, sys.issued + Stored(append.writes, k))
    case Exit => sys.(live := None)
    case LoseCheckpoint => sys.(disk := sys.disk.(checkpoint := None))
    case RestoreCheckpoint(c) => sys.(disk := sys.disk.(checkpoint := Some(c)))
  }

  /** The samples absorbed so far: an append counts once all its JSON bytes
      landed, newline or not; nothing else adds or removes a sample. */
  ghost function HistoryAfter(host: Host, sys: Sys, samples: seq<Sample>, step: Step): seq<Sample>
    requires Enabled(host, sys, step)
  {
    if !(step.AppendSample? || step.FailInAppend? || step.CrashInAppend?) then samples
    else
      var c := sys.live.value;
      if Append(c.env, sys.disk, c.state, step.s).result.Err? then samples
      else if step.AppendSample? || step.k >= 1 || step.torn >= |host.serialise(step.s)| then samples + [step.s]
      else samples
  }

  // ----- the invariant --------------------------------------------------------

  /** `c` is the state of the first `c.sequence` samples, all committed. */
  ghost predicate OnRecord(env: Env, samples: seq<Sample>, log: Bytes, c: Checkpoint) {
    && c.sequence <= |samples|
    && c == StateOf(env, samples[..c.sequence])
    && LogOf(env.host, samples[..c.sequence]) <= log
  }

  ghost predicate Inv(host: Host, sys: Sys, samples: seq<Sample>) {
    && Numbered(host, samples)
    && Holds(host, samples, sys.disk.log)
    && FragmentsSound(host, sys.disk.fragments)
    && (sys.disk.checkpoint.Some? ==> sys.disk.checkpoint.value in sys.issued)
    && (forall c :: c in sys.issued ==> exists env: Env :: env.host == host && OnRecord(env, samples, sys.disk.log, c))
    && (sys.live.Some? ==> sys.live.value.env.host == host
                           && OnRecord(sys.live.value.env, samples, sys.disk.log, sys.live.value.state))
  }

  lemma InvCheckpoint(host: Host, sys: Sys, samples: seq<Sample>)
    requires Lawful(host) && Inv(host, sys, samples) && sys.disk.checkpoint.Some?
    ensures WrittenFor(host, sys.disk.log, sys.disk.checkpoint.value)
  {
    var c := sys.disk.checkpoint.value;
    var env: Env :| env.host == host && OnRecord(env, samples, sys.disk.log, c);
    ReplayGivesState(env, samples[..c.sequence], sys.disk.log);
  }

  /** Where the committed part of a log that holds samples ends. */
  lemma HoldsSplit(host: Host, samples: seq<Sample>, log: Bytes)
    requires Lawful(host) && Numbered(host, samples) && Holds(host, samples, log)
    ensures var whole := LogOf(host, samples);
            if samples != [] && log + [NEWLINE] == whole then
              var n := |samples| - 1;
              var before := LogOf(host, samples[..n]);
              && Committed(log) == |before| && before <= log && log[|before|..] == host.serialise(samples[n])
              && host.serialise(samples[n]) != []
            else Committed(log) == |whole| && whole <= log && host.parse(log[|whole|..]).None?
  {
    hide Committed, LogOf;
    var whole := LogOf(host, samples);
    LogEndsLine(host, samples);
    if samples != [] && log + [NEWLINE] == whole {
      TornLastRecord(host, samples, log);
    } else {
      assert forall i :: |whole| <= i < |log| ==> log[i] == log[|whole|..][i - |whole|];
      CommittedIs(log, |whole|);
    }
  }

  lemma TornLastRecord(host: Host, samples: seq<Sample>, log: Bytes)
    requires Lawful(host) && Numbered(host, samples) && samples != [] && log + [NEWLINE] == LogOf(host, samples)
    ensures var n := |samples| - 1;
            var before := LogOf(host, samples[..n]);
            && Committed(log) == |before| && before <= log && log[|before|..] == host.serialise(samples[n])
            && host.serialise(samples[n]) != []
  {
    hide Committed;
    var n := |samples| - 1;
    var json := host.serialise(samples[n]);
    var before := LogOf(host, samples[..n]);
    LogEndsLine(host, samples[..n]);
    assert Sound(host, samples[n]);
    assert IsBlank([]);
    assert log + [NEWLINE] == before + (json + [NEWLINE]) == (before + json) + [NEWLINE];
    assert log == (log + [NEWLINE])[..|log|] == before + json;
    CommittedIs(log, |before|);
  }

  /** A full replay of a log that holds samples gives their state and leaves their
      records. */
  lemma ReplayOfHeld(env: Env, samples: seq<Sample>, disk: Disk)
    requires Lawful(env.host) && Numbered(env.host, samples) && Holds(env.host, samples, disk.log)
    ensures ReplayTail(env, disk, Initial(env)).result == Ok(StateOf(env, samples))
    ensures FinishedLog(env, disk) == LogOf(env.host, samples)
  {
    hide ReplayTail, ReplayTo, Committed, StateOf;
    var log := disk.log;
    HoldsSplit(env.host, samples, log);
    ReplaySplits(env, disk, Initial(env));
    var whole := LogOf(env.host, samples);
    if samples != [] && log + [NEWLINE] == whole {
      var n := |samples| - 1;
      var s := samples[n];
      assert Sound(env.host, s);
      assert samples == samples[..n] + [s];
      ReplayGivesState(env, samples[..n], log);
      StateOffset(env, samples[..n]);
      AbsorbExtends(env, samples[..n], s);
    } else {
      ReplayGivesState(env, samples, log);
      assert log[..|whole|] == whole;
    }
  }

  /** In every state that satisfies the invariant, with whatever checkpoint is
      there, open succeeds and yields the state of the absorbed samples. */
  lemma OpenFromInv(env: Env, sys: Sys, samples: seq<Sample>)
    requires Lawful(env.host) && Inv(env.host, sys, samples)
    ensures Open(env, sys.disk).result == Ok(StateOf(env, samples))
    ensures FinishedLog(env, sys.disk) == LogOf(env.host, samples)
  {
    hide Open, ReplayTail, StateOf, Lawful, Holds, OnRecord;
    if sys.disk.checkpoint.Some? {
      InvCheckpoint(env.host, sys, samples);
    }
    CheckpointIsDisposable(env, sys.disk);
    ReplayOfHeld(env, samples, sys.disk);
  }

  // ----- every step keeps the invariant ---------------------------------------

  lemma OnRecordKept(env: Env, samples: seq<Sample>, log: Bytes, more: seq<Sample>, log': Bytes, c: Checkpoint)
    requires OnRecord(env, samples, log, c) && samples <= more
    requires log <= log' || LogOf(env.host, samples[..c.sequence]) <= log'
    ensures OnRecord(env, more, log', c)
  {
    assert more[..c.sequence] == samples[..c.sequence];
  }

  /** An accepted append finds a log of whole records and a state up to date:
      the length check rules everything else out. */
  lemma AcceptedMeansClean(host: Host, sys: Sys, samples: seq<Sample>, s: Sample)
    requires Lawful(host) && Inv(host, sys, samples) && sys.live.Some?
    requires Append(sys.live.value.env, sys.disk, sys.live.value.state, s).result.Ok?
    ensures sys.live.value.state == StateOf(sys.live.value.env, samples)
    ensures sys.disk.log == LogOf(host, samples)
    ensures s.sequence == |samples| + 1
  {
    var c := sys.live.value;
    var k := c.state.sequence;
    StateOffset(c.env, samples[..k]);
    LogPrefix(host, samples, k);
    assert k == |samples|;
    assert samples[..k] == samples;
  }

  /** What the first `n` bytes of an append make of a clean log. */
  lemma AppendLands(host: Host, samples: seq<Sample>, s: Sample, n: nat)
    requires Lawful(host) && Numbered(host, samples) && Sound(host, s) && s.sequence == |samples| + 1
    requires n <= |Record(host, s)|
    ensures var more := if n >= |host.serialise(s)| then samples + [s] else samples;
            Numbered(host, more) && Holds(host, more, LogOf(host, samples) + Record(host, s)[..n])
  {
    hide LogOf;
    var json := host.serialise(s);
    var whole := LogOf(host, samples);
    var log := whole + Record(host, s)[..n];
    LogExtends(host, samples, s);
    assert IsBlank([]);
    if n < |json| {
      PartLands(host, samples, s, n);
    } else if n == |json| {
      assert Record(host, s)[..n] == json;
      assert log + [NEWLINE] == LogOf(host, samples + [s]);
    } else {
      assert Record(host, s)[..n] == Record(host, s);
      assert log[|LogOf(host, samples + [s])|..] == [];
    }
  }

  lemma PartLands(host: Host, samples: seq<Sample>, s: Sample, n: nat)
    requires Sound(host, s) && n < |host.serialise(s)|
    ensures Holds(host, samples, LogOf(host, samples) + Record(host, s)[..n])
  {
    hide LogOf;
    var json, whole := host.serialise(s), LogOf(host, samples);
    var log := whole + Record(host, s)[..n];
    assert Record(host, s)[..n] == json[..n];
    assert log[|whole|..] == json[..n];
  }

  lemma CleanHolds(host: Host, samples: seq<Sample>)
    requires Lawful(host)
    ensures Holds(host, samples, LogOf(host, samples))
  {
    var whole := LogOf(host, samples);
    assert whole[|whole|..] == [] && IsBlank([]);
  }

  lemma StateOnRecord(env: Env, samples: seq<Sample>, log: Bytes)
    requires LogOf(env.host, samples) <= log
    ensures OnRecord(env, samples, log, StateOf(env, samples))
  {
    StateOffset(env, samples);
    assert samples[..|samples|] == samples;
  }

  /** The shape shared by all steps: the log may grow or lose a torn tail, the
      history may grow, and new checkpoints are states of the new history. */
  lemma InvMoves(host: Host, sys: Sys, samples: seq<Sample>, sys': Sys, more: seq<Sample>)
    requires Lawful(host) && Inv(host, sys, samples)
    requires samples <= more && Numbered(host, more) && Holds(host, more, sys'.disk.log)
    requires sys.disk.log <= sys'.disk.log || LogOf(host, samples) <= sys'.disk.log
    requires FragmentsSound(host, sys'.disk.fragments)
    requires sys'.disk.checkpoint.Some? ==> sys'.disk.checkpoint.value in sys'.issued
    requires forall c :: c in sys'.issued && c !in sys.issued ==>
               exists env: Env :: env.host == host && OnRecord(env, more, sys'.disk.log, c)
    requires sys'.live.Some? && sys'.live != sys.live ==>
               && sys'.live.value.env.host == host
               && OnRecord(sys'.live.value.env, more, sys'.disk.log, sys'.live.value.state)
    ensures Inv(host, sys', more)
  {
    forall c | c in sys'.issued
      ensures exists env: Env :: env.host == host && OnRecord(env, more, sys'.disk.log, c)
    {
      if c in sys.issued {
        var env: Env :| env.host == host && OnRecord(env, samples, sys.disk.log, c);
        LogPrefix(host, samples, c.sequence);
        OnRecordKept(env, samples, sys.disk.log, more, sys'.disk.log, c);
      }
    }
    if sys'.live.Some? && sys'.live == sys.live {
      LogPrefix(host, samples, sys.live.value.state.sequence);
      OnRecordKept(sys.live.value.env, samples, sys.disk.log, more, sys'.disk.log, sys.live.value.state);
    }
  }

  lemma OpenKeepsInv(host: Host, sys: Sys, samples: seq<Sample>, env: Env, k: nat, torn: nat)
    requires Lawful(host) && Inv(host, sys, samples)
    requires Enabled(host, sys, CrashInOpen(env, k, torn))
    ensures Inv(host, Next(host, sys, CrashInOpen(env, k, torn)), samples)
  {
    var sys' := Next(host, sys, CrashInOpen(env, k, torn));
    var st := StateOf(env, samples);
    OpenFromInv(env, sys, samples);
    OpenWrites(env, sys.disk);
    OpenCrash(env, sys.disk, k, torn);
    OpenKeepsFragmentsSound(env, sys.disk, k, torn);
    CleanHolds(host, samples);
    OpenStores(env, sys.disk, k);
    if k == |Open(env, sys.disk).writes| {
      OpenCompletes(env, sys.disk);
      StateOnRecord(env, samples, LogOf(host, samples));
    }
    InvMoves(host, sys, samples, sys', samples);
  }

  /** An open stores one checkpoint, with its last write. */
  lemma OpenStores(env: Env, disk: Disk, k: nat)
    requires Open(env, disk).result.Ok? && k <= |Open(env, disk).writes|
    ensures var open := Open(env, disk);
            Stored(open.writes, k) == if k == |open.writes| then {open.result.value} else {}
    ensures |Open(env, disk).writes| > 0
  {
    OpenWrites(env, disk);
    var open := Open(env, disk);
    var last := |open.writes| - 1;
    assert open.writes[last] == ReplaceCheckpoint(open.result.value);
    assert forall i :: 0 <= i < last ==> !open.writes[i].ReplaceCheckpoint?;
    if k == |open.writes| {
      assert open.result.value in Stored(open.writes, k);
    }
  }

  function Landed(host: Host, s: Sample, k: nat, torn: nat): (n: nat)
    ensures n <= |Record(host, s)|
  {
    if k >= 1 || torn >= |Record(host, s)| then |Record(host, s)| else torn
  }

  /** What a crash inside an accepted append leaves. */
  lemma AppendCrash(env: Env, disk: Disk, st: Checkpoint, s: Sample, k: nat, torn: nat)
    requires Append(env, disk, st, s).result.Ok? && k <= 2
    ensures var append := Append(env, disk, st, s);
            && |append.writes| == 2
            && CrashAt(disk, append.writes, k, torn) ==
               Disk(disk.log + Record(env.host, s)[..Landed(env.host, s, k, torn)],
                    if k == 2 then Some(append.result.value) else disk.checkpoint, disk.fragments)
            && Stored(append.writes, k) == if k == 2 then {append.result.value} else {}
  {
    var append := Append(env, disk, st, s);
    var record := Record(env.host, s);
    FirstWrites(disk, append.writes, k);
    assert record[..|record|] == record;
    if k == 2 {
      assert append.writes[1].state in Stored(append.writes, k);
    }
  }

  lemma AppendKeepsInv(host: Host, sys: Sys, samples: seq<Sample>, s: Sample, k: nat, torn: nat, sys': Sys)
    requires Lawful(host) && Inv(host, sys, samples) && sys.live.Some? && Sound(host, s) && k <= 2
    requires var c := sys.live.value;
             var append := Append(c.env, sys.disk, c.state, s);
             && append.result.Ok?
             && sys'.disk == CrashAt(sys.disk, append.writes, k, torn)
             && sys'.issued == sys.issued + Stored(append.writes, k)
             && (sys'.live.Some? && sys'.live != sys.live ==>
                k >= 1 && sys'.live.value == Collector(c.env, append.result.value))
    ensures Inv(host, sys', if k >= 1 || torn >= |host.serialise(s)| then samples + [s] else samples)
  {
    hide CrashAt, StateOf, LogOf, Holds;
    var c := sys.live.value;
    var more := if k >= 1 || torn >= |host.serialise(s)| then samples + [s] else samples;
    var n := Landed(host, s, k, torn);
    AppendCrash(c.env, sys.disk, c.state, s, k, torn);
    AcceptedMeansClean(host, sys, samples, s);
    AppendLands(host, samples, s, n);
    if k >= 1 {
      AbsorbExtends(c.env, samples, s);
      LogExtends(host, samples, s);
      assert Record(host, s)[..n] == Record(host, s);
      StateOnRecord(c.env, more, sys'.disk.log);
    }
    InvMoves(host, sys, samples, sys', more);
  }

  /** A refused append leaves everything as it was. */
  lemma RefusedAppend(host: Host, sys: Sys, step: Step)
    requires Enabled(host, sys, step) && (step.AppendSample? || step.FailInAppend? || step.CrashInAppend?)
    requires Append(sys.live.value.env, sys.disk, sys.live.value.state, step.s).result.Err?
    ensures Next(host, sys, step).disk == sys.disk && Next(host, sys, step).issued == sys.issued
    ensures Next(host, sys, step).live.Some? ==> Next(host, sys, step).live == sys.live
  {
    assert Stored([], 0) == {};
  }

  lemma OpenRunKeepsInv(host: Host, sys: Sys, samples: seq<Sample>, env: Env)
    requires Lawful(host) && Inv(host, sys, samples) && Enabled(host, sys, OpenRun(env))
    ensures Inv(host, Next(host, sys, OpenRun(env)), samples)
  {
    OpenKeepsInv(host, sys, samples, env, |Open(env, sys.disk).writes|, 0);
    OpenFromInv(env, sys, samples);
    OpenCompletes(env, sys.disk);
    StateOnRecord(env, samples, LogOf(host, samples));
  }

  lemma StepKeepsInv(host: Host, sys: Sys, samples: seq<Sample>, step: Step)
    requires Lawful(host) && Inv(host, sys, samples) && Enabled(host, sys, step)
    ensures Inv(host, Next(host, sys, step), HistoryAfter(host, sys, samples, step))
  {
    hide StateOf, LogOf, Absorb, ReplayTail, ApplyFirst, OnRecord;
    var sys' := Next(host, sys, step);
    if step.OpenRun? {
      OpenRunKeepsInv(host, sys, samples, step.env);
    } else if step.CrashInOpen? {
      OpenKeepsInv(host, sys, samples, step.env, step.k, step.torn);
    } else if step.AppendSample? || step.FailInAppend? || step.CrashInAppend? {
      var c := sys.live.value;
      if Append(c.env, sys.disk, c.state, step.s).result.Err? {
        RefusedAppend(host, sys, step);
        InvMoves(host, sys, samples, sys', samples);
      } else if step.AppendSample? {
        AppendKeepsInv(host, sys, samples, step.s, 2, 0, sys');
      } else {
        AppendKeepsInv(host, sys, samples, step.s, step.k, step.torn, sys');
      }
    } else {
      InvMoves(host, sys, samples, sys', samples);
    }
  }

  // ----- runs -------------------------------------------------------------------

  /** Some run of these steps, from a fresh directory, is possible. */
  ghost predicate Possible(host: Host, steps: seq<Step>)
    decreases |steps|, 0
  {
    steps == [] ||
    var n := |steps| - 1;
    Possible(host, steps[..n]) && Enabled(host, After(host, steps[..n]), steps[n])
  }

  ghost function After(host: Host, steps: seq<Step>): Sys
    requires Possible(host, steps)
    decreases |steps|, 1
  {
    if steps == [] then FRESH
    else var n := |steps| - 1; Next(host, After(host, steps[..n]), steps[n])
  }

  /** The samples a run absorbs. */
  ghost function History(host: Host, steps: seq<Step>): seq<Sample>
    requires Possible(host, steps)
  {
    if steps == [] then []
    else
      var n := |steps| - 1;
      HistoryAfter(host, After(host, steps[..n]), History(host, steps[..n]), steps[n])
  }

  lemma {:induction false} RunKeepsInv(host: Host, steps: seq<Step>)
    requires Lawful(host) && Possible(host, steps)
    ensures Inv(host, After(host, steps), History(host, steps))
  {
    if steps == [] {
      CleanHolds(host, []);
    } else {
      var n := |steps| - 1;
      RunKeepsInv(host, steps[..n]);
      StepKeepsInv(host, After(host, steps[..n]), History(host, steps[..n]), steps[n]);
    }
  }

  /** After any history, with the checkpoint missing, unreadable or any earlier
      one, under this or another manifest or evaluator: an open succeeds, its
      state is the state of the absorbed samples, which is what a full replay
      from nothing gives, and the log is exactly their records. */
  lemma EveryOpenIsAFullReplay(host: Host, steps: seq<Step>, env: Env)
    requires Lawful(host) && Possible(host, steps) && env.host == host
    ensures var disk := After(host, steps).disk;
            var samples := History(host, steps);
            && Open(env, disk).result == Ok(StateOf(env, samples))
            && Open(env, disk) == Open(env, disk.(checkpoint := None))
            && ApplyAll(disk, Open(env, disk).writes).log == LogOf(host, samples)
            && forall i :: 0 <= i < |samples| ==> samples[i].sequence == i + 1
  {
    RunKeepsInv(host, steps);
    var sys := After(host, steps);
    OpenFromInv(env, sys, History(host, steps));
    if sys.disk.checkpoint.Some? {
      InvCheckpoint(host, sys, History(host, steps));
    }
    CheckpointIsDisposable(env, sys.disk);
    OpenCompletes(env, sys.disk);
  }

  /** A crash at any byte of an accepted append, then a reopen: the samples are
      as before, or extended by exactly the new one, and which of the two is
      decided by whether all its JSON bytes landed. */
  lemma CrashedAppendIsAtomic(host: Host, steps: seq<Step>, s: Sample, k: nat, torn: nat, env: Env)
    requires Lawful(host) && Possible(host, steps + [CrashInAppend(s, k, torn)]) && env.host == host
    requires Possible(host, steps) && After(host, steps).live.Some?
    requires var c := After(host, steps).live.value;
             Append(c.env, After(host, steps).disk, c.state, s).result.Ok?
    ensures var before := History(host, steps);
            var open := Open(env, After(host, steps + [CrashInAppend(s, k, torn)]).disk);
            && (open.result == Ok(StateOf(env, before + [s])) || open.result == Ok(StateOf(env, before)))
            && (open.result == Ok(StateOf(env, before + [s])) <==> k >= 1 || torn >= |host.serialise(s)|)
  {
    hide Append, Open, StateOf, CrashAt;
    var run := steps + [CrashInAppend(s, k, torn)];
    assert run[..|steps|] == steps && run[|steps|] == CrashInAppend(s, k, torn);
    EveryOpenIsAFullReplay(host, run, env);
    StateOffset(env, History(host, steps));
    StateOffset(env, History(host, steps) + [s]);
  }

  /** A live collector that opened and appended without an I/O error is never
      behind: its state is the state of all absorbed samples whenever the log
      has the length it expects, and appending the next number is accepted
      exactly then. */
  lemma LiveStateIsCurrent(host: Host, steps: seq<Step>, s: Sample)
    requires Lawful(host) && Possible(host, steps) && After(host, steps).live.Some?
    requires Sound(host, s) && s.sequence == After(host, steps).live.value.state.sequence + 1
    ensures var sys := After(host, steps);
            var c := sys.live.value;
            var samples := History(host, steps);
            Append(c.env, sys.disk, c.state, s).result.Ok? <==>
              c.state == StateOf(c.env, samples) && sys.disk.log == LogOf(host, samples)
  {
    RunKeepsInv(host, steps);
    var sys := After(host, steps);
    StateOffset(sys.live.value.env, History(host, steps));
    if Append(sys.live.value.env, sys.disk, sys.live.value.state, s).result.Ok? {
      AcceptedMeansClean(host, sys, History(host, steps), s);
    }
  }

  /** `since` has exactly the tickets ready in the last sample, each with the
      time of the first sample of its latest unbroken run of readiness. */
  ghost predicate ReadinessMeans(seen: seq<Sample>, since: map<string, Time>) {
    var n := |seen|;
    && (forall t :: t in since <==> n > 0 && t in seen[n - 1].ready)
    && forall t :: t in since ==>
         exists i :: && 0 <= i < n && since[t] == seen[i].observedAt
                     && (forall j :: i <= j < n ==> t in seen[j].ready)
                     && (i > 0 ==> t !in seen[i - 1].ready)
  }

  /** `cursor` is the greatest cursor any of these samples carried. */
  ghost predicate CursorMeans(seen: seq<Sample>, cursor: Option<string>) {
    && (cursor.Some? ==> exists i :: 0 <= i < |seen| && seen[i].eventCursor == cursor)
    && forall i :: 0 <= i < |seen| && seen[i].eventCursor.Some? ==>
         cursor.Some? && AtMost(seen[i].eventCursor.value, cursor.value)
  }

  lemma ReadinessMeaning(seen: seq<Sample>)
    ensures ReadinessMeans(seen, ReadySince(seen)) && CursorMeans(seen, GreatestCursor(seen))
  {
    CursorIsGreatest(seen);
    var since := ReadySince(seen);
    forall t | t in since
      ensures exists i :: && 0 <= i < |seen| && since[t] == seen[i].observedAt
                          && (forall j :: i <= j < |seen| ==> t in seen[j].ready)
                          && (i > 0 ==> t !in seen[i - 1].ready)
    {
      var i := StreakStart(seen, t);
      assert i < |seen| && since[t] == seen[i].observedAt;
    }
  }

  /** In every run, the ready times and the cursor of a live collector mean what
      the documentation says, for the samples it has absorbed. */
  lemma ReadinessInEveryRun(host: Host, steps: seq<Step>)
    requires Lawful(host) && Possible(host, steps) && After(host, steps).live.Some?
    ensures var st := After(host, steps).live.value.state;
            && st.sequence <= |History(host, steps)|
            && ReadinessMeans(History(host, steps)[..st.sequence], st.readySince)
            && CursorMeans(History(host, steps)[..st.sequence], st.eventCursor)
  {
    RunKeepsInv(host, steps);
    var c := After(host, steps).live.value;
    var seen := History(host, steps)[..c.state.sequence];
    StateOffset(c.env, seen);
    assert c.state.readySince == ReadySince(seen) && c.state.eventCursor == GreatestCursor(seen);
    ReadinessMeaning(seen);
  }

  /** The whole seconds of a duration in nanoseconds; none if it is negative. */
  predicate IsSeconds(seconds: nat, d: int) {
    if d < 0 then seconds == 0 else seconds * 1_000_000_000 <= d < (seconds + 1) * 1_000_000_000
  }

  lemma SecondsMean(d: int)
    ensures IsSeconds(WholeSeconds(d), d)
  {
  }

  /** The age of a ticket is counted from the first sample of its latest unbroken
      run of readiness, and the gap from the last sample. */
  ghost predicate AgesMean(seen: seq<Sample>, st: Checkpoint, ticket: string, start: Time, now: Time) {
    var n := |seen|;
    && IsSeconds(GapAt(st, start, now), now - if n == 0 then start else seen[n - 1].observedAt)
    && (n == 0 || ticket !in seen[n - 1].ready ==> ReadyAgeAt(st, ticket, now) == 0)
    && (n > 0 && ticket in seen[n - 1].ready ==>
          exists i :: && 0 <= i < n && IsSeconds(ReadyAgeAt(st, ticket, now), now - seen[i].observedAt)
                      && (forall j :: i <= j < n ==> ticket in seen[j].ready)
                      && (i > 0 ==> ticket !in seen[i - 1].ready))
  }

  lemma AgesOfState(env: Env, seen: seq<Sample>, ticket: string, start: Time, now: Time)
    ensures AgesMean(seen, StateOf(env, seen), ticket, start, now)
  {
    hide WholeSeconds, IsSeconds, StateOf, ReadySince, CursorMeans, GreatestCursor;
    forall d
      ensures IsSeconds(WholeSeconds(d), d)
    {
      SecondsMean(d);
    }
    ReadinessMeaning(seen);
    TimesOfState(env, seen);
  }

  lemma TimesOfState(env: Env, seen: seq<Sample>)
    ensures StateOf(env, seen).readySince == ReadySince(seen)
    ensures StateOf(env, seen).lastObserved == if seen == [] then None else Some(seen[|seen| - 1].observedAt)
  {
  }

  lemma AgesInEveryRun(host: Host, steps: seq<Step>, ticket: string, start: Time, now: Time)
    requires Lawful(host) && Possible(host, steps) && After(host, steps).live.Some?
    ensures var st := After(host, steps).live.value.state;
            st.sequence <= |History(host, steps)|
                && AgesMean(History(host, steps)[..st.sequence], st, ticket, start, now)
  {
    hide AgesMean, StateOf, After, History, Possible, LogOf;
    RunKeepsInv(host, steps);
    var c := After(host, steps).live.value;
    AgesOfState(c.env, History(host, steps)[..c.state.sequence], ticket, start, now);
  }

  /** In every run, whatever an open cuts off the log is already saved. */
  lemma EveryCutIsSaved(host: Host, steps: seq<Step>, env: Env, k: nat)
    requires Lawful(host) && Possible(host, steps) && env.host == host
    requires k < |Open(env, After(host, steps).disk).writes|
    requires Open(env, After(host, steps).disk).writes[k].SetLen?
    ensures var disk := After(host, steps).disk;
            var before := ApplyFirst(disk, Open(env, disk).writes, k);
            var c := Committed(disk.log);
            && before.log == disk.log && Open(env, disk).writes[k].len == c
            && exists name :: name in before.fragments && name.offset == c && before.fragments[name] == disk.log[c..]
  {
    RunKeepsInv(host, steps);
    CutBytesAreSaved(env, After(host, steps).disk, k);
  }

  /** No step of any run changes a committed byte. */
  lemma CommittedBytesNeverChange(host: Host, sys: Sys, step: Step)
    requires Enabled(host, sys, step)
    ensures sys.disk.log[..Committed(sys.disk.log)] <= Next(host, sys, step).disk.log
  {
    match step
    case OpenRun(env) => OpenKeepsCommitted(env, sys.disk, |Open(env, sys.disk).writes|, 0);
    case CrashInOpen(env, k, torn) => OpenKeepsCommitted(env, sys.disk, k, torn);
    case AppendSample(s) =>
      FirstWrites(sys.disk, Append(sys.live.value.env, sys.disk, sys.live.value.state, s).writes,
                  |Append(sys.live.value.env, sys.disk, sys.live.value.state, s).writes|);
    case FailInAppend(s, k, _) =>
      FirstWrites(sys.disk, Append(sys.live.value.env, sys.disk, sys.live.value.state, s).writes, k);
    case CrashInAppend(s, k, _) =>
      FirstWrites(sys.disk, Append(sys.live.value.env, sys.disk, sys.live.value.state, s).writes, k);
    case Exit =>
    case LoseCheckpoint =>
    case RestoreCheckpoint(_) =>
  }

  // ----- what append does not check ---------------------------------------------

  /** A log to which a sample of any schema version was appended: a full replay
      accepts it if and only if the version is the supported one. */
  lemma ReplayOfAppended(env: Env, samples: seq<Sample>, s: Sample, fragments: map<FragmentName, Bytes>)
    requires Lawful(env.host) && Numbered(env.host, samples)
    requires RoundTrips(env.host, s) && s.sequence == |samples| + 1
    ensures var disk := Disk(LogOf(env.host, samples) + Record(env.host, s), None, fragments);
            Open(env, disk).result.Ok? <==> s.schemaVersion == SCHEMA_VERSION
  {
    hide ReplayTail, Committed, StateOf, LineEnd;
    var before, record := LogOf(env.host, samples), Record(env.host, s);
    var log := before + record;
    StateOffset(env, samples);
    ReplayGivesState(env, samples, log);
    assert log[|before|..] == record && env.host.parse(record) == Some(s);
    ReplayOneMore(env, log, Initial(env), |before|);
    CommittedIs(log, |log|);
    ReplaySplits(env, Disk(log, None, fragments), Initial(env));
  }

  lemma StateOwner(env: Env, samples: seq<Sample>)
    ensures StateOf(env, samples).manifestDigest == env.host.digest(env.manifest)
    ensures StateOf(env, samples).evaluatorVersion == env.evaluator
  {
  }

  lemma AppendedDisk(env: Env, disk: Disk, samples: seq<Sample>, s: Sample)
    requires disk.log == LogOf(env.host, samples) && s.sequence == |samples| + 1
    ensures var append := Append(env, disk, StateOf(env, samples), s);
            var next := Absorb(env, StateOf(env, samples), s, Record(env.host, s));
            && append.result == Ok(next)
            && ApplyAll(disk, append.writes) == Disk(disk.log + Record(env.host, s), Some(next), disk.fragments)
  {
    hide StateOf, LogOf, Absorb;
    StateOffset(env, samples);
    var writes := Append(env, disk, StateOf(env, samples), s).writes;
    FirstWrites(disk, writes, |writes|);
  }

  /** The checkpoint an append leaves is trusted when its record is short enough
      to be checked, and then nothing is replayed. */
  lemma AppendedIsTrusted(env: Env, before: Bytes, st: Checkpoint, s: Sample, fragments: map<FragmentName, Bytes>)
    requires st.offset == |before|
    requires st.manifestDigest == env.host.digest(env.manifest) && st.evaluatorVersion == env.evaluator
    ensures var next := Absorb(env, st, s, Record(env.host, s));
            var after := Disk(before + Record(env.host, s), Some(next), fragments);
            if |Record(env.host, s)| <= MAX_CHECKED_RECORD then Open(env, after).result == Ok(next)
            else Open(env, after) == Open(env, after.(checkpoint := None))
  {
    var record := Record(env.host, s);
    var next := Absorb(env, st, s, record);
    var after := Disk(before + record, Some(next), fragments);
    assert after.log[next.lastStart..next.offset] == record;
    if |record| <= MAX_CHECKED_RECORD {
      assert Trusted(env, after) == next;
    } else {
      assert Trusted(env, after) == Initial(env);
      ReplayIgnoresCheckpoint(env, after, None, Initial(env));
    }
  }

  /** `append` does not look at the schema version.  What it leaves reopens if and
      only if the version is supported or the record is short enough for its
      checkpoint to be trusted; a full replay succeeds if and only if the version
      is supported; so the checkpoint and the replay disagree exactly when the
      version is unsupported and the record short. */
  lemma AppendTrustsTheSchema(env: Env, disk: Disk, samples: seq<Sample>, s: Sample)
    requires Lawful(env.host) && Numbered(env.host, samples) && disk.log == LogOf(env.host, samples)
    requires RoundTrips(env.host, s) && s.sequence == |samples| + 1
    ensures Append(env, disk, StateOf(env, samples), s).result.Ok?
    ensures var after := ApplyAll(disk, Append(env, disk, StateOf(env, samples), s).writes);
            var supported, checked := s.schemaVersion == SCHEMA_VERSION, |Record(env.host, s)| <= MAX_CHECKED_RECORD;
            && (Open(env, after).result.Ok? <==> supported || checked)
            && (Open(env, after.(checkpoint := None)).result.Ok? <==> supported)
            && (Open(env, after) == Open(env, after.(checkpoint := None)) <==> supported || !checked)
  {
    hide Open, StateOf, Absorb, Append;
    var after := ApplyAll(disk, Append(env, disk, StateOf(env, samples), s).writes);
    AppendedDisk(env, disk, samples, s);
    StateOffset(env, samples);
    StateOwner(env, samples);
    AppendedIsTrusted(env, disk.log, StateOf(env, samples), s, disk.fragments);
    ReplayOfAppended(env, samples, s, disk.fragments);
    if s.schemaVersion == SCHEMA_VERSION {
      AppendSupported(env, samples, s, after);
    }
  }

  lemma AppendSupported(env: Env, samples: seq<Sample>, s: Sample, after: Disk)
    requires Lawful(env.host) && Numbered(env.host, samples) && Sound(env.host, s) && s.sequence == |samples| + 1
    requires after.log == LogOf(env.host, samples) + Record(env.host, s)
    requires after.checkpoint == Some(Absorb(env, StateOf(env, samples), s, Record(env.host, s)))
    ensures Open(env, after) == Open(env, after.(checkpoint := None))
  {
    hide Open, StateOf, Absorb, Summarises;
    AbsorbExtends(env, samples, s);
    ReplayGivesState(env, samples, after.log);
    ReplayLastRecord(env, samples, s, after.log);
    CheckpointIsDisposable(env, after);
  }

  // ----- the assumptions can all hold at once -----------------------------------

  /** The `n`th sample, stamped with the supported or with another schema. */
  function NumberedSample(n: nat, schemaVersion: nat): Sample {
    Sample(schemaVersion, n, 0, None, {}, "")
  }

  const OTHER_SCHEMA := SCHEMA_VERSION + 1

  function WithoutNewlines(bytes: Bytes): Bytes {
    if EndsLine(bytes) then WithoutNewlines(bytes[..|bytes| - 1]) else bytes
  }

  function Closing(schemaVersion: nat): Byte {
    if schemaVersion == SCHEMA_VERSION then 125 else 93
  }

  /** A tally: `n` ones and a closing byte that tells the schema. */
  function Tally(s: Sample): Bytes {
    seq(s.sequence, _ => 1) + [Closing(s.schemaVersion)]
  }

  function ReadTally(bytes: Bytes): Option<Sample> {
    var b := WithoutNewlines(bytes);
    if b == [] || !(forall i :: 0 <= i < |b| - 1 ==> b[i] == 1) then None
    else if b[|b| - 1] == 125 then Some(NumberedSample(|b| - 1, SCHEMA_VERSION))
    else if b[|b| - 1] == 93 then Some(NumberedSample(|b| - 1, OTHER_SCHEMA))
    else None
  }

  const TALLY_HOST := Host(ReadTally, Tally, (b: Bytes) => b, (_: nat, _: Manifest, p: Progress, _: Sample) => p)

  lemma {:induction false} BlankStaysBlank(bytes: Bytes)
    requires IsBlank(bytes)
    ensures IsBlank(WithoutNewlines(bytes))
  {
    if EndsLine(bytes) {
      BlankStaysBlank(bytes[..|bytes| - 1]);
    }
  }

  lemma TallyHostLawful()
    ensures Lawful(TALLY_HOST)
  {
    forall a: Bytes
      ensures ReadTally(a + [NEWLINE]) == ReadTally(a)
    {
      assert (a + [NEWLINE])[..|a|] == a;
    }
    forall a: Bytes | IsBlank(a)
      ensures ReadTally(a).None?
    {
      BlankStaysBlank(a);
      var b := WithoutNewlines(a);
      assert b != [] ==> IsBlankByte(b[|b| - 1]);
    }
  }

  /** A lawful host exists, and with it samples of every number that survive being
      written, of the supported schema and of another. */
  lemma AssumptionsCanHold(n: nat)
    ensures Lawful(TALLY_HOST) && Sound(TALLY_HOST, NumberedSample(n, SCHEMA_VERSION))
    ensures RoundTrips(TALLY_HOST, NumberedSample(n, OTHER_SCHEMA))
  {
    TallyHostLawful();
    TallyRoundTrips(n, SCHEMA_VERSION);
    TallyRoundTrips(n, OTHER_SCHEMA);
  }

  lemma TallyRoundTrips(n: nat, schemaVersion: nat)
    requires schemaVersion == SCHEMA_VERSION || schemaVersion == OTHER_SCHEMA
    ensures RoundTrips(TALLY_HOST, NumberedSample(n, schemaVersion))
  {
    var json := Tally(NumberedSample(n, schemaVersion));
    assert !EndsLine(json);
    forall k | 0 <= k < |json|
      ensures ReadTally(json[..k]).None?
    {
      assert !EndsLine(json[..k]);
    }
  }

  /** The failing input: one sample of another schema, appended to an empty log.
      The collector's own checkpoint reopens, a full replay refuses the log. */
  lemma SchemaSlipsThrough()
    ensures var env, s := Env(TALLY_HOST, [], 0), NumberedSample(1, OTHER_SCHEMA);
            var disk := Disk([], None, map[]);
            var after := ApplyAll(disk, Append(env, disk, Initial(env), s).writes);
            && Lawful(TALLY_HOST) && RoundTrips(TALLY_HOST, s) && Append(env, disk, Initial(env), s).result.Ok?
            && Open(env, after).result.Ok? && Open(env, after.(checkpoint := None)).result.Err?
  {
    AssumptionsCanHold(1);
    AppendTrustsTheSchema(Env(TALLY_HOST, [], 0), Disk([], None, map[]), [], NumberedSample(1, OTHER_SCHEMA));
  }
}
