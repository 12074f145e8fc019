/** The observation log of `observation_store.rs` on values: what a record, a
    checkpoint and a run directory are, what replaying the log computes, and
    which disk writes `open` and `append` issue, in which order.  The mutable
    collector is in `ObservationCollector.dfy`, histories with crashes are in
    `ObservationHistory.dfy`. */
module ObservationStore {
  import opened Basics

  type Byte = b: int | 0 <= b < 256
  type Bytes = seq<Byte>
  type Digest = seq<Byte>

  /** A frozen manifest, standing for its serialised bytes (thresholds included). */
  type Manifest = Bytes

  /** The progress evaluator's state; only the evaluator looks inside. */
  type Progress = string

  /** Nanoseconds since the epoch. */
  type Time = int

  const NEWLINE: Byte := 10
  const SCHEMA_VERSION: nat := 1
  const MAX_CHECKED_RECORD: nat := 64 * 1024 * 1024
  const NANOS_PER_SECOND: int := 1_000_000_000

  /** The fields of a sample that the log reads; `rest` is everything else. */
  datatype Sample = Sample(
    schemaVersion: nat,
    sequence: nat,
    observedAt: Time,
    eventCursor: Option<string>,
    ready: set<string>,
    rest: string)

  /** The code this module calls but does not own: JSON, SHA-256, and the
      progress evaluator, which changes with its version. */
  datatype Host = Host(
    parse: Bytes -> Option<Sample>,
    serialise: Sample -> Bytes,
    digest: Bytes -> Digest,
    advance: (nat, Manifest, Progress, Sample) -> Progress)

  /** What one collector process runs with. */
  datatype Env = Env(host: Host, manifest: Manifest, evaluator: nat)

  datatype Checkpoint = Checkpoint(
    manifestDigest: Digest,
    evaluatorVersion: nat,
    offset: nat,
    lastStart: nat,
    lastDigest: Digest,
    sequence: nat,
    lastObserved: Option<Time>,
    eventCursor: Option<string>,
    readySince: map<string, Time>,
    progress: Progress)

  /** `recovery/<offset>-<digest>.partial` */
  datatype FragmentName = FragmentName(offset: nat, digest: Digest)

  /** The run directory; a missing or unreadable checkpoint is `None`. */
  datatype Disk = Disk(
    log: Bytes,
    checkpoint: Option<Checkpoint>,
    fragments: map<FragmentName, Bytes>)

  /** One durable effect.  Appending bytes is the only one a crash can tear. */
  datatype Write =
    | WriteEnd(bytes: Bytes)
    | SetLen(len: nat)
    | SaveFragment(name: FragmentName, saved: Bytes)
    | ReplaceCheckpoint(state: Checkpoint)

  datatype Error =
    | Unparsable(at: nat)
    | BadSchemaOrSequence(at: nat)
    | SequenceChanged
    | LogChangedOutside

  // ----- records ---------------------------------------------------------

  predicate IsBlankByte(b: Byte) {
    b == 32 || b == 9 || b == 10 || b == 12 || b == 13
  }

  predicate IsBlank(line: Bytes) {
    forall i :: 0 <= i < |line| ==> IsBlankByte(line[i])
  }

  predicate EndsLine(line: Bytes) {
    line != [] && line[|line| - 1] == NEWLINE
  }

  /** What one `append` writes for a sample. */
  function Record(host: Host, s: Sample): Bytes {
    host.serialise(s) + [NEWLINE]
  }

  /** Where the line starting at `i` ends: past its newline, or at the end. */
  function LineEnd(log: Bytes, i: nat): (e: nat)
    requires i < |log|
    ensures i < e <= |log|
    decreases |log| - i
  {
    if log[i] == NEWLINE || i + 1 == |log| then i + 1 else LineEnd(log, i + 1)
  }

  /** The position past the last newline among the first `n` bytes. */
  function CommittedAmong(log: Bytes, n: nat): (c: nat)
    requires n <= |log|
    ensures c <= n
  {
    if n == 0 || log[n - 1] == NEWLINE then n else CommittedAmong(log, n - 1)
  }

  /** What is committed: the log through its last newline. */
  function Committed(log: Bytes): (c: nat)
    ensures c <= |log|
  {
    CommittedAmong(log, |log|)
  }

  // ----- the collector's state -------------------------------------------

  function Initial(env: Env): Checkpoint {
    Checkpoint(env.host.digest(env.manifest), env.evaluator, 0, 0, [], 0, None, None, map[], "")
  }

  function LaterCursor(previous: Option<string>, cursor: Option<string>): Option<string> {
    if cursor.Some? && (previous.None? || Less(previous.value, cursor.value)) then cursor else previous
  }

  /** `absorb`: the state after one more sample whose record is `bytes`. */
  function Absorb(env: Env, st: Checkpoint, s: Sample, bytes: Bytes): Checkpoint {
    st.(readySince := map t | t in s.ready :: if t in st.readySince then st.readySince[t] else s.observedAt,
        progress := env.host.advance(env.evaluator, env.manifest, st.progress, s),
        eventCursor := LaterCursor(st.eventCursor, s.eventCursor),
        sequence := s.sequence,
        lastObserved := Some(s.observedAt),
        lastStart := st.offset,
        offset := st.offset + |bytes|,
        lastDigest := env.host.digest(bytes))
  }

  /** Whole seconds of a duration; a negative one counts as zero. */
  function WholeSeconds(d: int): nat {
    if d < 0 then 0 else d / NANOS_PER_SECOND
  }

  /** How long the ticket has been ready; zero when it is not. */
  function ReadyAgeAt(st: Checkpoint, ticket: string, now: Time): nat {
    if ticket in st.readySince then WholeSeconds(now - st.readySince[ticket]) else 0
  }

  /** How long ago the last sample was, or the start of the run. */
  function GapAt(st: Checkpoint, start: Time, now: Time): nat {
    WholeSeconds(now - match st.lastObserved case Some(t) => t case None => start)
  }

  /** A blank line only moves the position. */
  function SkipBlank(env: Env, st: Checkpoint, line: Bytes): Checkpoint {
    st.(lastStart := st.offset, offset := st.offset + |line|, lastDigest := env.host.digest(line))
  }

  function Accept(env: Env, st: Checkpoint, s: Sample, line: Bytes): Result<Checkpoint, Error> {
    if s.schemaVersion != SCHEMA_VERSION || s.sequence != st.sequence + 1
    then Err(BadSchemaOrSequence(st.offset))
    else Ok(Absorb(env, st, s, line))
  }

  /** One complete line of the replay loop. */
  function StepLine(env: Env, st: Checkpoint, line: Bytes): (r: Result<Checkpoint, Error>)
    ensures r.Ok? ==> r.value.offset == st.offset + |line|
  {
    if IsBlank(line) then Ok(SkipBlank(env, st, line))
    else match env.host.parse(line)
         case None => Err(Unparsable(st.offset))
         case Some(s) => Accept(env, st, s, line)
  }

  // ----- replay ----------------------------------------------------------

  datatype Outcome = Outcome(result: Result<Checkpoint, Error>, writes: seq<Write>)

  /** The final line has no newline: keep its bytes, then finish or cut it. */
  function Repair(env: Env, disk: Disk, st: Checkpoint, line: Bytes): Outcome {
    var name := FragmentName(st.offset, env.host.digest(line));
    var save := if name in disk.fragments then [] else [SaveFragment(name, line)];
    match env.host.parse(line)
    case None => Outcome(Ok(st), save + [SetLen(st.offset)])
    case Some(s) => Outcome(Accept(env, st, s, line + [NEWLINE]), save + [WriteEnd([NEWLINE])])
  }

  /** `replay_tail` from state `st`. */
  function ReplayTail(env: Env, disk: Disk, st: Checkpoint): Outcome
    decreases |disk.log| - st.offset
  {
    if st.offset >= |disk.log| then Outcome(Ok(st), [])
    else
      var line := disk.log[st.offset..LineEnd(disk.log, st.offset)];
      if !EndsLine(line) then Repair(env, disk, st, line)
      else
        match StepLine(env, st, line)
        case Err(e) => Outcome(Err(e), [])
        case Ok(next) => ReplayTail(env, disk, next)
  }

  /** `valid_checkpoint` */
  predicate ValidCheckpoint(host: Host, log: Bytes, st: Checkpoint) {
    if st.offset == 0 then st.sequence == 0
    else
      && st.lastStart < st.offset <= |log|
      && st.offset - st.lastStart <= MAX_CHECKED_RECORD
      && var bytes := log[st.lastStart..st.offset];
         EndsLine(bytes) && host.digest(bytes) == st.lastDigest
  }

  /** The state `open` starts its replay from. */
  function Trusted(env: Env, disk: Disk): (st: Checkpoint)
    ensures st.offset <= |disk.log|
  {
    match disk.checkpoint
    case Some(c) =>
      if && c.manifestDigest == env.host.digest(env.manifest)
         && c.evaluatorVersion == env.evaluator
         && ValidCheckpoint(env.host, disk.log, c)
      then c else Initial(env)
    case None => Initial(env)
  }

  /** `open`: on success the last write replaces the checkpoint. */
  function Open(env: Env, disk: Disk): Outcome {
    var replay := ReplayTail(env, disk, Trusted(env, disk));
    match replay.result
    case Err(_) => replay
    case Ok(st) => replay.(writes := replay.writes + [ReplaceCheckpoint(st)])
  }

  /** `append` on a collector whose state is `st`. */
  function Append(env: Env, disk: Disk, st: Checkpoint, s: Sample): Outcome {
    if s.sequence != st.sequence + 1 then Outcome(Err(SequenceChanged), [])
    else if |disk.log| != st.offset then Outcome(Err(LogChangedOutside), [])
    else
      var record := Record(env.host, s);
      var next := Absorb(env, st, s, record);
      Outcome(Ok(next), [WriteEnd(record), ReplaceCheckpoint(next)])
  }

  // ----- durable effects and crashes -------------------------------------

  function Apply(disk: Disk, w: Write): Disk {
    match w
    case WriteEnd(bytes) => disk.(log := disk.log + bytes)
    case SetLen(len) => if len <= |disk.log| then disk.(log := disk.log[..len]) else disk
    case SaveFragment(name, saved) => disk.(fragments := disk.fragments[name := saved])
    case ReplaceCheckpoint(state) => disk.(checkpoint := Some(state))
  }

  /** The disk after the first `k` writes. */
  function ApplyFirst(disk: Disk, writes: seq<Write>, k: nat): Disk
    requires k <= |writes|
  {
    if k == 0 then disk else Apply(ApplyFirst(disk, writes, k - 1), writes[k - 1])
  }

  function ApplyAll(disk: Disk, writes: seq<Write>): Disk {
    ApplyFirst(disk, writes, |writes|)
  }

  /** The disk after a crash that let the first `k` writes through and, when the
      next one appends, the first `torn` of its bytes. */
  function CrashAt(disk: Disk, writes: seq<Write>, k: nat, torn: nat): Disk
    requires k <= |writes|
  {
    var d := ApplyFirst(disk, writes, k);
    if k < |writes| && writes[k].WriteEnd?
    then Apply(d, WriteEnd(writes[k].bytes[..if torn < |writes[k].bytes| then torn else |writes[k].bytes|]))
    else d
  }

  // ----- assumptions on the code this module does not own ------------------

  /** SHA-256 is injective; JSON ignores a trailing newline and never reads a
      value from blank input. */
  ghost predicate Lawful(host: Host) {
    && (forall a, b :: host.digest(a) == host.digest(b) ==> a == b)
    && (forall a :: host.parse(a + [NEWLINE]) == host.parse(a))
    && (forall a :: IsBlank(a) ==> host.parse(a).None?)
  }

  /** A sample that survives being written: its JSON holds no newline, parses
      back, and no shorter prefix of it parses. */
  ghost predicate RoundTrips(host: Host, s: Sample) {
    var json := host.serialise(s);
    && NEWLINE !in json
    && host.parse(json) == Some(s)
    && forall n :: 0 <= n < |json| ==> host.parse(json[..n]).None?
  }

  /** What a collector appends: it stamps the supported schema itself. */
  ghost predicate Sound(host: Host, s: Sample) {
    RoundTrips(host, s) && s.schemaVersion == SCHEMA_VERSION
  }

  // ----- checkpoints are disposable ---------------------------------------

  ghost predicate Boundary(log: Bytes, i: nat) {
    i <= |log| && (i == 0 || log[i - 1] == NEWLINE)
  }

  /** Replaying whole lines up to `limit`; the reference a checkpoint summarises. */
  function ReplayTo(env: Env, log: Bytes, st: Checkpoint, limit: nat): Result<Checkpoint, Error>
    requires limit <= |log|
    decreases limit - st.offset
  {
    if st.offset >= limit then Ok(st)
    else
      match StepLine(env, st, log[st.offset..LineEnd(log, st.offset)])
      case Err(e) => Err(e)
      case Ok(next) => ReplayTo(env, log, next, limit)
  }

  /** `c` is what `env` computes from the whole lines in front of its offset. */
  ghost predicate Summarises(env: Env, log: Bytes, c: Checkpoint) {
    Boundary(log, c.offset) && ReplayTo(env, log, Initial(env), c.offset) == Ok(c)
  }

  /** `c` summarises this log for some collector, perhaps under another manifest
      or another evaluator.  Every checkpoint written in a history of sound
      samples does; the checkpoint of an append of another schema does not. */
  ghost predicate WrittenFor(host: Host, log: Bytes, c: Checkpoint) {
    exists env: Env :: env.host == host && Summarises(env, log, c)
  }

  lemma {:induction false} LineEndWithin(log: Bytes, i: nat, limit: nat)
    requires i < limit && Boundary(log, limit)
    ensures LineEnd(log, i) <= limit && log[LineEnd(log, i) - 1] == NEWLINE
    decreases |log| - i
  {
    if log[i] != NEWLINE && i + 1 < |log| {
      LineEndWithin(log, i + 1, limit);
    }
  }

  /** Replay to a later boundary goes through the state at an earlier one. */
  lemma {:induction false} ReplayThrough(env: Env, log: Bytes, st: Checkpoint, mid: nat, limit: nat)
    requires st.offset <= mid <= limit <= |log| && Boundary(log, mid)
    ensures var r := ReplayTo(env, log, st, mid);
            && (r.Err? ==> ReplayTo(env, log, st, limit) == r)
            && (r.Ok? ==> r.value.offset == mid && ReplayTo(env, log, st, limit) == ReplayTo(env, log, r.value, limit))
    decreases mid - st.offset
  {
    if st.offset < mid {
      LineEndWithin(log, st.offset, mid);
      var next := StepLine(env, st, log[st.offset..LineEnd(log, st.offset)]);
      if next.Ok? {
        ReplayThrough(env, log, next.value, mid, limit);
      }
    }
  }

  /** The replay loop may stop at any line boundary and resume from the state it
      had reached. */
  lemma {:induction false} ReplayResumes(env: Env, disk: Disk, st: Checkpoint, mid: nat)
    requires st.offset <= mid && Boundary(disk.log, mid)
    ensures var r := ReplayTo(env, disk.log, st, mid);
            && (r.Err? ==> ReplayTail(env, disk, st) == Outcome(r, []))
            && (r.Ok? ==> r.value.offset == mid && ReplayTail(env, disk, st) == ReplayTail(env, disk, r.value))
    decreases mid - st.offset
  {
    if st.offset < mid {
      hide LineEnd, StepLine, Repair;
      LineEndWithin(disk.log, st.offset, mid);
      var next := StepLine(env, st, disk.log[st.offset..LineEnd(disk.log, st.offset)]);
      if next.Ok? {
        ReplayResumes(env, disk, next.value, mid);
      }
    }
  }

  /** The fields of a replayed state that name the collector never change. */
  lemma {:induction false} ReplayKeepsOwner(env: Env, log: Bytes, st: Checkpoint, limit: nat)
    requires limit <= |log| && ReplayTo(env, log, st, limit).Ok?
    ensures var end := ReplayTo(env, log, st, limit).value;
            end.manifestDigest == st.manifestDigest && end.evaluatorVersion == st.evaluatorVersion
    decreases limit - st.offset
  {
    if st.offset < limit {
      ReplayKeepsOwner(env, log, StepLine(env, st, log[st.offset..LineEnd(log, st.offset)]).value, limit);
    }
  }

  lemma {:induction false} ReplayIgnoresCheckpoint(env: Env, disk: Disk, other: Option<Checkpoint>, st: Checkpoint)
    ensures ReplayTail(env, disk, st) == ReplayTail(env, disk.(checkpoint := other), st)
    decreases |disk.log| - st.offset
  {
    if st.offset < |disk.log| {
      var next := StepLine(env, st, disk.log[st.offset..LineEnd(disk.log, st.offset)]);
      if next.Ok? {
        ReplayIgnoresCheckpoint(env, disk, other, next.value);
      }
    }
  }

  /** Whatever log it finds, `open` with a missing checkpoint or with any
      checkpoint that summarises this log does exactly what a full replay from
      nothing does: same state or same error, same writes. */
  lemma CheckpointIsDisposable(env: Env, disk: Disk)
    requires Lawful(env.host)
    requires disk.checkpoint.Some? ==> WrittenFor(env.host, disk.log, disk.checkpoint.value)
    ensures Open(env, disk) == Open(env, disk.(checkpoint := None))
    ensures Open(env, disk).result == ReplayTail(env, disk, Initial(env)).result
  {
    ReplayIgnoresCheckpoint(env, disk, None, Trusted(env, disk));
    ReplayIgnoresCheckpoint(env, disk, None, Initial(env));
    if Trusted(env, disk) != Initial(env) {
      var c := disk.checkpoint.value;
      var writer: Env :| writer.host == env.host && Summarises(writer, disk.log, c);
      ReplayKeepsOwner(writer, disk.log, Initial(writer), c.offset);
      assert writer == env;
      ReplayResumes(env, disk, Initial(env), c.offset);
    }
  }

  // ----- what an open does to the disk -------------------------------------

  lemma {:induction false} CommittedIsLast(log: Bytes, n: nat)
    requires n <= |log|
    ensures Boundary(log, CommittedAmong(log, n))
    ensures forall i :: CommittedAmong(log, n) <= i < n ==> log[i] != NEWLINE
  {
    if n > 0 && log[n - 1] != NEWLINE {
      CommittedIsLast(log, n - 1);
    }
  }

  /** There is only one way to split a log at its last newline. */
  lemma CommittedIs(log: Bytes, at: nat)
    requires Boundary(log, at) && forall i :: at <= i < |log| ==> log[i] != NEWLINE
    ensures Committed(log) == at
  {
    CommittedIsLast(log, |log|);
  }

  lemma {:induction false} LineEndUnfinished(log: Bytes, i: nat)
    requires i < |log| && forall j :: i <= j < |log| ==> log[j] != NEWLINE
    ensures LineEnd(log, i) == |log|
    decreases |log| - i
  {
    if i + 1 < |log| {
      LineEndUnfinished(log, i + 1);
    }
  }

  /** The replay loop, said without a loop: fold the committed lines, then
      repair what follows the last newline. */
  lemma ReplaySplits(env: Env, disk: Disk, st: Checkpoint)
    requires st.offset <= Committed(disk.log)
    ensures var c := Committed(disk.log);
            var r := ReplayTo(env, disk.log, st, c);
            && (r.Ok? ==> r.value.offset == c)
            && ReplayTail(env, disk, st) ==
               if r.Err? || c == |disk.log| then Outcome(r, []) else Repair(env, disk, r.value, disk.log[c..])
  {
    var c := Committed(disk.log);
    CommittedIsLast(disk.log, |disk.log|);
    ReplayResumes(env, disk, st, c);
    if c < |disk.log| {
      LineEndUnfinished(disk.log, c);
      assert disk.log[c..|disk.log|] == disk.log[c..];
    }
  }

  /** Whatever checkpoint it finds, `open` resumes at a line boundary. */
  lemma TrustedAtBoundary(env: Env, disk: Disk)
    ensures Boundary(disk.log, Trusted(env, disk).offset)
    ensures Trusted(env, disk).offset <= Committed(disk.log)
  {
    CommittedIsLast(disk.log, |disk.log|);
  }

  function Saving(env: Env, disk: Disk): seq<Write> {
    var c := Committed(disk.log);
    var name := FragmentName(c, env.host.digest(disk.log[c..]));
    if name in disk.fragments then [] else [SaveFragment(name, disk.log[c..])]
  }

  function Finishing(env: Env, disk: Disk): Write {
    var c := Committed(disk.log);
    if env.host.parse(disk.log[c..]).None? then SetLen(c) else WriteEnd([NEWLINE])
  }

  /** The writes of an open depend on the log, never on the checkpoint: either
      none before the new checkpoint, or keep the torn bytes and then cut or
      finish them. */
  lemma OpenWrites(env: Env, disk: Disk)
    ensures var open := Open(env, disk);
            var commit := if open.result.Ok? then [ReplaceCheckpoint(open.result.value)] else [];
            || open.writes == commit
            || (Committed(disk.log) < |disk.log| && open.writes == Saving(env, disk) + [Finishing(env, disk)] + commit)
    ensures Open(env, disk).result.Ok? && Committed(disk.log) < |disk.log|
            ==> |Open(env, disk).writes| >= 2
  {
    TrustedAtBoundary(env, disk);
    ReplaySplits(env, disk, Trusted(env, disk));
  }

  /** At most three writes: what each of their prefixes leaves. */
  lemma FirstWrites(disk: Disk, writes: seq<Write>, k: nat)
    requires k <= |writes| && k <= 3
    ensures ApplyFirst(disk, writes, k) ==
            if k == 0 then disk
            else if k == 1 then Apply(disk, writes[0])
            else if k == 2 then Apply(Apply(disk, writes[0]), writes[1])
            else Apply(Apply(Apply(disk, writes[0]), writes[1]), writes[2])
  {
    if k > 0 {
      FirstWrites(disk, writes, k - 1);
    }
  }

  /** What an open makes of the bytes after the last newline. */
  function FinishedLog(env: Env, disk: Disk): Bytes {
    var c := Committed(disk.log);
    if c == |disk.log| || env.host.parse(disk.log[c..]).None? then disk.log[..c] else disk.log + [NEWLINE]
  }

  function SavedFragments(env: Env, disk: Disk): map<FragmentName, Bytes> {
    var c := Committed(disk.log);
    var name := FragmentName(c, env.host.digest(disk.log[c..]));
    if c == |disk.log| || name in disk.fragments then disk.fragments else disk.fragments[name := disk.log[c..]]
  }

  /** Every disk a crash inside an open can leave. */
  lemma OpenCrash(env: Env, disk: Disk, k: nat, torn: nat)
    requires k <= |Open(env, disk).writes|
    ensures var after := CrashAt(disk, Open(env, disk).writes, k, torn);
            && (after.fragments == disk.fragments || after.fragments == SavedFragments(env, disk))
            && (after.log == disk.log
               || (after.log == FinishedLog(env, disk) && after.fragments == SavedFragments(env, disk)))
            && (after.checkpoint == disk.checkpoint ||
                (&& Open(env, disk).result.Ok? && k == |Open(env, disk).writes|
                 && after == Disk(FinishedLog(env, disk), Some(Open(env, disk).result.value),
                    SavedFragments(env, disk))))
  {
    hide Open, Committed;
    var open := Open(env, disk);
    OpenWrites(env, disk);
    FirstWrites(disk, open.writes, k);
    if k == |open.writes| && open.result.Ok? {
      OpenCompletes(env, disk);
    } else if open.writes != [] && !open.writes[0].ReplaceCheckpoint? {
      RepairCrash(disk, Saving(env, disk), Finishing(env, disk),
                  if open.result.Ok? then [ReplaceCheckpoint(open.result.value)] else [], k, torn);
    }
  }

  lemma RepairCrash(disk: Disk, save: seq<Write>, finish: Write, commit: seq<Write>, k: nat, torn: nat)
    requires |save| <= 1 && (|save| == 1 ==> save[0].SaveFragment?)
    requires |commit| <= 1 && (|commit| == 1 ==> commit[0].ReplaceCheckpoint?)
    requires finish == WriteEnd([NEWLINE]) || finish.SetLen?
    requires k <= |save| + 1
    ensures var saved := if save == [] then disk else Apply(disk, save[0]);
            CrashAt(disk, save + [finish] + commit, k, torn) in {disk, saved, Apply(saved, finish)}
  {
    var writes := save + [finish] + commit;
    FirstWrites(disk, writes, k);
    var saved := ApplyFirst(disk, writes, if k <= |save| then k else |save|);
    if k == |save| && finish.WriteEnd? {
      assert [NEWLINE][..0] == [] && [NEWLINE][..1] == [NEWLINE] && saved.log + [] == saved.log;
    }
  }

  lemma OpenCompletes(env: Env, disk: Disk)
    requires Open(env, disk).result.Ok?
    ensures ApplyAll(disk, Open(env, disk).writes) ==
            Disk(FinishedLog(env, disk), Some(Open(env, disk).result.value), SavedFragments(env, disk))
  {
    OpenWrites(env, disk);
    FirstWrites(disk, Open(env, disk).writes, |Open(env, disk).writes|);
    assert disk.log[..|disk.log|] == disk.log;
  }

  /** No crash point of an open changes a committed byte of the log, and every
      fragment already saved stays as it is. */
  lemma OpenKeepsCommitted(env: Env, disk: Disk, k: nat, torn: nat)
    requires k <= |Open(env, disk).writes|
    ensures var after := CrashAt(disk, Open(env, disk).writes, k, torn);
            && disk.log[..Committed(disk.log)] <= after.log
            && disk.fragments.Keys <= after.fragments.Keys
            && forall name :: name in disk.fragments ==> after.fragments[name] == disk.fragments[name]
  {
    OpenCrash(env, disk, k, torn);
  }

  /** Every fragment holds the bytes its name was computed from. */
  ghost predicate FragmentsSound(host: Host, fragments: map<FragmentName, Bytes>) {
    forall name :: name in fragments ==> host.digest(fragments[name]) == name.digest
  }

  lemma OpenKeepsFragmentsSound(env: Env, disk: Disk, k: nat, torn: nat)
    requires FragmentsSound(env.host, disk.fragments) && k <= |Open(env, disk).writes|
    ensures FragmentsSound(env.host, CrashAt(disk, Open(env, disk).writes, k, torn).fragments)
  {
    OpenCrash(env, disk, k, torn);
  }

  /** When an open cuts the log, the bytes it cuts are already saved. */
  lemma CutBytesAreSaved(env: Env, disk: Disk, k: nat)
    requires Lawful(env.host) && FragmentsSound(env.host, disk.fragments)
    requires k < |Open(env, disk).writes| && Open(env, disk).writes[k].SetLen?
    ensures var before := ApplyFirst(disk, Open(env, disk).writes, k);
            var len := Open(env, disk).writes[k].len;
            && before.log == disk.log && len == Committed(disk.log)
            && var name := FragmentName(len, env.host.digest(disk.log[len..]));
               name in before.fragments && before.fragments[name] == disk.log[len..]
  {
    OpenWrites(env, disk);
    FirstWrites(disk, Open(env, disk).writes, k);
  }

  lemma {:induction false} LineEndAgrees(a: Bytes, b: Bytes, i: nat, limit: nat)
    requires i < limit && Boundary(a, limit) && limit <= |b| && a[..limit] == b[..limit]
    ensures LineEnd(a, i) == LineEnd(b, i) <= limit
    decreases limit - i
  {
    assert a[i] == a[..limit][i] == b[i];
    if i + 1 == limit {
      assert a[i] == NEWLINE;
    } else if a[i] != NEWLINE {
      LineEndAgrees(a, b, i + 1, limit);
    }
  }

  /** Replay to a boundary only sees the bytes in front of it. */
  lemma {:induction false} ReplayAgrees(env: Env, a: Bytes, b: Bytes, st: Checkpoint, limit: nat)
    requires Boundary(a, limit) && limit <= |b| && a[..limit] == b[..limit]
    ensures ReplayTo(env, a, st, limit) == ReplayTo(env, b, st, limit)
    decreases limit - st.offset
  {
    if st.offset < limit {
      LineEndAgrees(a, b, st.offset, limit);
      var e := LineEnd(a, st.offset);
      assert a[st.offset..e] == a[..limit][st.offset..e] == b[..limit][st.offset..e] == b[st.offset..e];
      var next := StepLine(env, st, a[st.offset..e]);
      if next.Ok? {
        ReplayAgrees(env, a, b, next.value, limit);
      }
    }
  }

  /** One more finished line extends a replay by one step. */
  lemma ReplayOneMore(env: Env, log: Bytes, st: Checkpoint, at: nat)
    requires st.offset <= at < |log| && Boundary(log, at) && Boundary(log, |log|)
    requires forall i :: at <= i < |log| - 1 ==> log[i] != NEWLINE
    requires ReplayTo(env, log, st, at).Ok?
    ensures ReplayTo(env, log, st, |log|) == StepLine(env, ReplayTo(env, log, st, at).value, log[at..])
  {
    ReplayThrough(env, log, st, at, |log|);
    LastLineEnd(log, at);
    assert log[at..|log|] == log[at..];
    var next := StepLine(env, ReplayTo(env, log, st, at).value, log[at..]);
    if next.Ok? {
      assert ReplayTo(env, log, next.value, |log|) == Ok(next.value);
    }
  }

  lemma {:induction false} LastLineEnd(log: Bytes, i: nat)
    requires i < |log| && forall j :: i <= j < |log| - 1 ==> log[j] != NEWLINE
    ensures LineEnd(log, i) == |log|
    decreases |log| - i
  {
    if i + 1 < |log| {
      LastLineEnd(log, i + 1);
    }
  }

  /** After a successful open the state sits at the end of the log and is the
      full replay of it. */
  lemma OpenSummarises(env: Env, disk: Disk)
    requires Lawful(env.host)
    requires disk.checkpoint.Some? ==> WrittenFor(env.host, disk.log, disk.checkpoint.value)
    requires Open(env, disk).result.Ok?
    ensures var after := ApplyAll(disk, Open(env, disk).writes);
            var st := Open(env, disk).result.value;
            st.offset == |after.log| && Summarises(env, after.log, st) && after.checkpoint == Some(st)
  {
    CheckpointIsDisposable(env, disk);
    OpenCompletes(env, disk);
    ReplayFinished(env, disk);
  }

  lemma ReplayFinished(env: Env, disk: Disk)
    requires Lawful(env.host) && ReplayTail(env, disk, Initial(env)).result.Ok?
    ensures var log := FinishedLog(env, disk);
            var r := ReplayTail(env, disk, Initial(env)).result;
            r.value.offset == |log| && Boundary(log, |log|) && ReplayTo(env, log, Initial(env), |log|) == r
  {
    hide ReplayTail, ReplayTo, LineEnd, CommittedAmong;
    var c := Committed(disk.log);
    var log := FinishedLog(env, disk);
    CommittedIsLast(disk.log, |disk.log|);
    ReplaySplits(env, disk, Initial(env));
    assert log[..c] == disk.log[..c] && Boundary(log, c);
    ReplayAgrees(env, disk.log, log, Initial(env), c);
    if c < |disk.log| && env.host.parse(disk.log[c..]).Some? {
      var line := disk.log[c..] + [NEWLINE];
      assert log[c..] == line && env.host.parse(line).Some?;
      ReplayOneMore(env, log, Initial(env), c);
    }
  }

  /** A second open changes nothing: same state, same log, same recovery files. */
  lemma OpenIsStable(env: Env, disk: Disk)
    requires Lawful(env.host)
    requires disk.checkpoint.Some? ==> WrittenFor(env.host, disk.log, disk.checkpoint.value)
    requires Open(env, disk).result.Ok?
    ensures var after := ApplyAll(disk, Open(env, disk).writes);
            && Open(env, after).result == Open(env, disk).result
            && ApplyAll(after, Open(env, after).writes) == after
  {
    OpenSummarises(env, disk);
    var after := ApplyAll(disk, Open(env, disk).writes);
    var st := Open(env, disk).result.value;
    assert WrittenFor(env.host, after.log, st);
    CheckpointIsDisposable(env, after);
    CommittedIs(after.log, |after.log|);
    ReplaySplits(env, after, Initial(env));
    OpenWrites(env, after);
    assert Open(env, after).writes == [ReplaceCheckpoint(st)];
    FirstWrites(after, Open(env, after).writes, 1);
  }
}
