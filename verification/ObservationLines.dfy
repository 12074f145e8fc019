/** What an open makes of an arbitrary log, said line by line and without the
    replay loop: which logs it accepts, the first fault of those it refuses, and
    the state, log and fragments it leaves. */
module ObservationLines {
  import opened Basics
  import opened ObservationStore
  import opened ObservationHistory

  // ----- a log as lines -------------------------------------------------------

  /** Bytes up to and with one newline. */
  predicate IsLine(line: Bytes) {
    line != [] && line[|line| - 1] == 10 && forall i :: 0 <= i < |line| - 1 ==> line[i] != 10
  }

  /** Tab, newline, form feed, carriage return and space only. */
  predicate OnlySpace(line: Bytes) {
    forall i :: 0 <= i < |line| ==> line[i] == 9 || line[i] == 10 || line[i] == 12 || line[i] == 13 || line[i] == 32
  }

  function Join(lines: seq<Bytes>): Bytes {
    if lines == [] then [] else Join(lines[..|lines| - 1]) + lines[|lines| - 1]
  }

  /** The finished lines of a log, and what follows its last newline. */
  ghost predicate Splits(log: Bytes, lines: seq<Bytes>, rest: Bytes) {
    && log == Join(lines) + rest
    && (forall n :: 0 <= n < |lines| ==> IsLine(lines[n]))
    && forall i :: 0 <= i < |rest| ==> rest[i] != 10
  }

  lemma JoinSnoc(lines: seq<Bytes>, line: Bytes)
    ensures Join(lines + [line]) == Join(lines) + line
  {
    assert (lines + [line])[..|lines|] == lines;
  }

  lemma LineFinished(log: Bytes, lines: seq<Bytes>, rest: Bytes)
    requires Splits(log, lines, rest)
    ensures Splits(log + [10], lines + [rest + [10]], [])
  {
    hide Join;
    JoinSnoc(lines, rest + [10]);
    assert Join(lines) + rest + [10] == Join(lines) + (rest + [10]) + [];
    assert IsLine(rest + [10]);
  }

  lemma LineContinued(log: Bytes, lines: seq<Bytes>, rest: Bytes, b: Byte)
    requires Splits(log, lines, rest) && b != 10
    ensures Splits(log + [b], lines, rest + [b])
  {
    hide Join;
    assert Join(lines) + rest + [b] == Join(lines) + (rest + [b]);
  }

  /** Every log splits. */
  lemma {:induction false} EveryLogSplits(log: Bytes) returns (lines: seq<Bytes>, rest: Bytes)
    ensures Splits(log, lines, rest)
  {
    if log == [] {
      lines, rest := [], [];
    } else {
      hide Splits;
      var n := |log| - 1;
      var before, part := EveryLogSplits(log[..n]);
      assert log == log[..n] + [log[n]];
      if log[n] == 10 {
        LineFinished(log[..n], before, part);
        lines, rest := before + [part + [10]], [];
      } else {
        LineContinued(log[..n], before, part, log[n]);
        lines, rest := before, part + [log[n]];
      }
    }
  }

  // ----- which lines are in order -----------------------------------------------

  /** How many lines are not blank. */
  function Written(lines: seq<Bytes>): nat {
    if lines == [] then 0
    else Written(lines[..|lines| - 1]) + if OnlySpace(lines[|lines| - 1]) then 0 else 1
  }

  /** `bytes` hold the sample of the supported schema that comes next. */
  predicate IsNext(host: Host, bytes: Bytes, before: nat) {
    && host.parse(bytes).Some?
    && host.parse(bytes).value.schemaVersion == 1
    && host.parse(bytes).value.sequence == before + 1
  }

  /** The line is blank, or holds the sample numbered after the lines before it. */
  predicate InOrderAt(host: Host, lines: seq<Bytes>, n: nat)
    requires n < |lines|
  {
    OnlySpace(lines[n]) || IsNext(host, lines[n], Written(lines[..n]))
  }

  ghost predicate AllInOrder(host: Host, lines: seq<Bytes>, n: nat) {
    n <= |lines| && forall k :: 0 <= k < n ==> InOrderAt(host, lines, k)
  }

  /** An unfinished last line that holds a sample. */
  predicate Ends(host: Host, rest: Bytes) {
    rest != [] && host.parse(rest).Some?
  }

  /** Which of the two faults a line has. */
  function FaultOf(host: Host, line: Bytes, at: nat): Error {
    if host.parse(line).None? then Unparsable(at) else BadSchemaOrSequence(at)
  }

  // ----- the state the lines stand for ----------------------------------------------

  function SamplesIn(host: Host, lines: seq<Bytes>): seq<Sample> {
    if lines == [] then []
    else
      var before, last := SamplesIn(host, lines[..|lines| - 1]), lines[|lines| - 1];
      if OnlySpace(last) || host.parse(last).None? then before else before + [host.parse(last).value]
  }

  /** The state of the samples, at the end of the lines. */
  function StateRead(env: Env, lines: seq<Bytes>): Checkpoint {
    var n := |lines|;
    StateOf(env, SamplesIn(env.host, lines)).(
      offset := |Join(lines)|,
      lastStart := if n == 0 then 0 else |Join(lines[..n - 1])|,
      lastDigest := if n == 0 then [] else env.host.digest(lines[n - 1]))
  }

  lemma {:induction false} SamplesAreWritten(host: Host, lines: seq<Bytes>)
    requires AllInOrder(host, lines, |lines|)
    ensures |SamplesIn(host, lines)| == Written(lines)
  {
    if lines != [] {
      var n := |lines| - 1;
      PrefixInOrder(host, lines, n);
      SamplesAreWritten(host, lines[..n]);
      assert InOrderAt(host, lines, n);
    }
  }

  lemma PrefixInOrder(host: Host, lines: seq<Bytes>, n: nat)
    requires n <= |lines| && AllInOrder(host, lines, n)
    ensures AllInOrder(host, lines[..n], n)
  {
    forall k | 0 <= k < n
      ensures InOrderAt(host, lines[..n], k)
    {
      assert InOrderAt(host, lines, k) && lines[..n][..k] == lines[..k];
    }
  }

  /** A sample more. */
  lemma AbsorbRead(env: Env, samples: seq<Sample>, s: Sample, st: Checkpoint, line: Bytes)
    requires s.sequence == |samples| + 1
    requires st == StateOf(env, samples).(offset := st.offset, lastStart := st.lastStart, lastDigest := st.lastDigest)
    ensures Absorb(env, st, s, line) == StateOf(env, samples + [s]).(
              offset := st.offset + |line|, lastStart := st.offset, lastDigest := env.host.digest(line))
  {
    hide StateOf, LaterCursor;
    AbsorbExtends(env, samples, s);
  }

  lemma StateReadSequence(env: Env, lines: seq<Bytes>)
    ensures StateRead(env, lines).sequence == |SamplesIn(env.host, lines)|
  {
    StateOffset(env, SamplesIn(env.host, lines));
  }

  lemma BlankMeansSpace(line: Bytes)
    ensures IsBlank(line) <==> OnlySpace(line)
  {
  }

  /** One line of the replay, from the state of the lines before it. */
  lemma StepReads(env: Env, lines: seq<Bytes>, n: nat)
    requires n < |lines| && AllInOrder(env.host, lines, n)
    ensures StepLine(env, StateRead(env, lines[..n]), lines[n]) ==
            if InOrderAt(env.host, lines, n) then Ok(StateRead(env, lines[..n + 1]))
            else Err(FaultOf(env.host, lines[n], |Join(lines[..n])|))
  {
    hide StateOf, Absorb, OnlySpace, IsBlank, Join;
    var host, line, before := env.host, lines[n], lines[..n];
    var st := StateRead(env, before);
    assert lines[..n + 1] == before + [line] && (before + [line])[..n] == before;
    JoinSnoc(before, line);
    BlankMeansSpace(line);
    PrefixInOrder(host, lines, n);
    SamplesAreWritten(host, before);
    StateReadSequence(env, before);
    if !OnlySpace(line) && IsNext(host, line, Written(before)) {
      AbsorbRead(env, SamplesIn(host, before), host.parse(line).value, st, line);
    }
  }

  // ----- replaying the lines -----------------------------------------------------------

  lemma {:induction false} LineEndIs(log: Bytes, i: nat, e: nat)
    requires i < e <= |log| && log[e - 1] == 10 && forall j :: i <= j < e - 1 ==> log[j] != 10
    ensures LineEnd(log, i) == e
    decreases e - i
  {
    if i + 1 < e {
      LineEndIs(log, i + 1, e);
    }
  }

  /** Where the `n`th line lies in the log. */
  lemma {:induction false} LineLies(lines: seq<Bytes>, n: nat)
    requires n < |lines|
    ensures var i, e := |Join(lines[..n])|, |Join(lines[..n + 1])|;
            i + |lines[n]| == e <= |Join(lines)| && Join(lines)[i..e] == lines[n]
    decreases |lines|
  {
    var m := |lines| - 1;
    assert lines[..n + 1] == lines[..n] + [lines[n]];
    JoinSnoc(lines[..n], lines[n]);
    if n < m {
      LineLies(lines[..m], n);
      assert lines[..m][..n] == lines[..n] && lines[..m][..n + 1] == lines[..n + 1];
    } else {
      assert lines[..n + 1] == lines;
    }
  }

  lemma LineInLog(log: Bytes, lines: seq<Bytes>, rest: Bytes, n: nat)
    requires Splits(log, lines, rest) && n < |lines|
    ensures var i, e := |Join(lines[..n])|, |Join(lines[..n + 1])|;
            i < e <= |log| && log[i..e] == lines[n] && LineEnd(log, i) == e && Boundary(log, e)
  {
    hide Join, LineEnd;
    LineLies(lines, n);
    var i, e := |Join(lines[..n])|, |Join(lines[..n + 1])|;
    SliceOfPrefix(log, Join(lines), i, e);
    assert IsLine(lines[n]);
    LineAt(log, lines[n], i, e);
  }

  lemma SliceOfPrefix(log: Bytes, front: Bytes, i: nat, e: nat)
    requires front <= log && i <= e <= |front|
    ensures log[i..e] == front[i..e]
  {
  }

  lemma LineAt(log: Bytes, line: Bytes, i: nat, e: nat)
    requires i <= e <= |log| && log[i..e] == line && IsLine(line)
    ensures i < e && LineEnd(log, i) == e && Boundary(log, e)
  {
    hide LineEnd;
    forall j | i <= j < e
      ensures log[j] == line[j - i]
    {
      assert log[i..e][j - i] == log[j];
    }
    LineEndIs(log, i, e);
  }

  lemma BoundaryAt(log: Bytes, lines: seq<Bytes>, rest: Bytes, n: nat)
    requires Splits(log, lines, rest) && n <= |lines|
    ensures |Join(lines[..n])| <= |log| && Boundary(log, |Join(lines[..n])|)
  {
    if n > 0 {
      LineInLog(log, lines, rest, n - 1);
    }
  }

  lemma ReplayOneLine(env: Env, log: Bytes, st: Checkpoint, limit: nat)
    requires st.offset < limit <= |log| && LineEnd(log, st.offset) == limit
    ensures ReplayTo(env, log, st, limit) == StepLine(env, st, log[st.offset..limit])
  {
    var next := StepLine(env, st, log[st.offset..limit]);
    if next.Ok? {
      assert ReplayTo(env, log, next.value, limit) == next;
    }
  }

  /** Lines in order replay to the state they stand for. */
  lemma {:induction false} LinesReplay(env: Env, log: Bytes, lines: seq<Bytes>, rest: Bytes, n: nat)
    requires Splits(log, lines, rest) && n <= |lines| && AllInOrder(env.host, lines, n)
    ensures |Join(lines[..n])| <= |log|
    ensures ReplayTo(env, log, Initial(env), |Join(lines[..n])|) == Ok(StateRead(env, lines[..n]))
  {
    hide ReplayTo, StepLine, StateRead, Join, Splits;
    BoundaryAt(log, lines, rest, n);
    if n == 0 {
      NoLinesReplay(env, log, lines[..0]);
    } else {
      LinesReplay(env, log, lines, rest, n - 1);
      LineReplays(env, log, lines, rest, n - 1);
    }
  }

  lemma NoLinesReplay(env: Env, log: Bytes, lines: seq<Bytes>)
    requires lines == []
    ensures Join(lines) == [] && ReplayTo(env, log, Initial(env), 0) == Ok(StateRead(env, lines))
  {
  }

  /** One line further, or the fault of that line. */
  lemma LineReplays(env: Env, log: Bytes, lines: seq<Bytes>, rest: Bytes, n: nat)
    requires Splits(log, lines, rest) && n < |lines| && AllInOrder(env.host, lines, n)
    requires |Join(lines[..n])| <= |log|
    requires ReplayTo(env, log, Initial(env), |Join(lines[..n])|) == Ok(StateRead(env, lines[..n]))
    ensures |Join(lines[..n + 1])| <= |log|
    ensures ReplayTo(env, log, Initial(env), |Join(lines[..n + 1])|) ==
            if InOrderAt(env.host, lines, n) then Ok(StateRead(env, lines[..n + 1]))
            else Err(FaultOf(env.host, lines[n], |Join(lines[..n])|))
  {
    hide ReplayTo, StepLine, Join, Splits, StateOf, InOrderAt, FaultOf;
    var i, e := |Join(lines[..n])|, |Join(lines[..n + 1])|;
    LineInLog(log, lines, rest, n);
    BoundaryAt(log, lines, rest, n);
    ReplayThrough(env, log, Initial(env), i, e);
    ReplayOneLine(env, log, StateRead(env, lines[..n]), e);
    StepReads(env, lines, n);
  }

  lemma CommittedIsJoin(log: Bytes, lines: seq<Bytes>, rest: Bytes)
    requires Splits(log, lines, rest)
    ensures Committed(log) == |Join(lines)| && log[|Join(lines)|..] == rest && log[..|Join(lines)|] == Join(lines)
  {
    hide Join, Committed;
    assert lines[..|lines|] == lines;
    BoundaryAt(log, lines, rest, |lines|);
    forall i | |Join(lines)| <= i < |log|
      ensures log[i] != 10
    {
      assert log[i] == rest[i - |Join(lines)|];
    }
    CommittedIs(log, |Join(lines)|);
  }

  // ----- what an open makes of it ------------------------------------------------------------

  /** Without a checkpoint, a log whose first faulty line is the `n`th is refused
      with that line's offset and fault, and nothing is written. */
  lemma FaultyLineRefused(env: Env, disk: Disk, lines: seq<Bytes>, rest: Bytes, n: nat)
    requires Splits(disk.log, lines, rest) && disk.checkpoint.None?
    requires n < |lines| && AllInOrder(env.host, lines, n) && !InOrderAt(env.host, lines, n)
    ensures Open(env, disk) == Outcome(Err(FaultOf(env.host, lines[n], |Join(lines[..n])|)), [])
  {
    hide ReplayTo, ReplayTail, Join, Splits, InOrderAt, FaultOf, StateRead;
    LinesReplay(env, disk.log, lines, rest, n);
    LineReplays(env, disk.log, lines, rest, n);
    BoundaryAt(disk.log, lines, rest, n + 1);
    ReplayResumes(env, disk, Initial(env), |Join(lines[..n + 1])|);
  }

  /** Without a checkpoint, a log of lines in order is replayed to their state,
      and then what follows the last newline is repaired. */
  lemma LinesThenRepair(env: Env, disk: Disk, lines: seq<Bytes>, rest: Bytes)
    requires Splits(disk.log, lines, rest) && disk.checkpoint.None? && AllInOrder(env.host, lines, |lines|)
    ensures Open(env, disk).result ==
            if !Ends(env.host, rest) then Ok(StateRead(env, lines))
            else Accept(env, StateRead(env, lines), env.host.parse(rest).value, rest + [10])
  {
    hide ReplayTo, ReplayTail, Join, Splits, AllInOrder, StateOf, Accept;
    CommittedIsJoin(disk.log, lines, rest);
    LinesReplay(env, disk.log, lines, rest, |lines|);
    assert lines[..|lines|] == lines;
    ReplaySplits(env, disk, Initial(env));
  }

  /** An unfinished last line that parses is accepted as the line it becomes. */
  lemma LastLineAccepted(env: Env, lines: seq<Bytes>, rest: Bytes)
    requires Lawful(env.host) && AllInOrder(env.host, lines, |lines|) && Ends(env.host, rest)
    ensures Accept(env, StateRead(env, lines), env.host.parse(rest).value, rest + [10]) ==
            if IsNext(env.host, rest, Written(lines)) then Ok(StateRead(env, lines + [rest + [10]]))
            else Err(BadSchemaOrSequence(|Join(lines)|))
  {
    hide StateOf, Absorb, Join, OnlySpace, AllInOrder, IsBlank;
    var more, line := lines + [rest + [10]], rest + [10];
    assert more[..|lines|] == lines;
    JoinSnoc(lines, line);
    SamplesAreWritten(env.host, lines);
    StateReadSequence(env, lines);
    BlankMeansSpace(line);
    assert env.host.parse(line) == env.host.parse(rest);
    if IsNext(env.host, rest, Written(lines)) {
      AbsorbRead(env, SamplesIn(env.host, lines), env.host.parse(rest).value, StateRead(env, lines), line);
    }
  }

  /** For every log and no checkpoint: open succeeds if and only if each finished
      line is blank or holds the sample of schema 1 numbered after the non-blank
      lines before it, and an unfinished last line that parses does too.  Then the
      state is that of these samples at the end of the finished log; otherwise the
      error names the offset of the first line out of order and its fault. */
  lemma OpenReadsTheLog(env: Env, disk: Disk, lines: seq<Bytes>, rest: Bytes)
    requires Lawful(env.host) && disk.checkpoint.None? && Splits(disk.log, lines, rest)
    ensures var open, host := Open(env, disk), env.host;
            && (open.result.Ok? <==>
                  && (forall n :: 0 <= n < |lines| ==> InOrderAt(host, lines, n))
                  && (Ends(host, rest) ==> IsNext(host, rest, Written(lines))))
            && (open.result.Ok? ==>
                  open.result.value == StateRead(env, if Ends(host, rest) then lines + [rest + [10]] else lines))
            && (forall n :: 0 <= n < |lines| && AllInOrder(host, lines, n) && !InOrderAt(host, lines, n) ==>
                  open.result == Err(FaultOf(host, lines[n], |Join(lines[..n])|)))
            && (AllInOrder(host, lines, |lines|) && open.result.Err? ==>
                  open.result == Err(BadSchemaOrSequence(|Join(lines)|)))
  {
    hide Open, Splits, InOrderAt, FaultOf, StateRead, Join, Lawful, Accept;
    if AllInOrder(env.host, lines, |lines|) {
      LinesThenRepair(env, disk, lines, rest);
      if Ends(env.host, rest) {
        LastLineAccepted(env, lines, rest);
      }
    } else {
      var n := FirstFault(env.host, lines, |lines|);
      FaultyLineRefused(env, disk, lines, rest, n);
      forall k | 0 <= k < |lines| && AllInOrder(env.host, lines, k) && !InOrderAt(env.host, lines, k)
        ensures k == n
      {
      }
    }
  }

  lemma {:induction false} FirstFault(host: Host, lines: seq<Bytes>, m: nat) returns (n: nat)
    requires m <= |lines| && !AllInOrder(host, lines, m)
    ensures n < m && AllInOrder(host, lines, n) && !InOrderAt(host, lines, n)
  {
    hide InOrderAt;
    if AllInOrder(host, lines, m - 1) {
      n := m - 1;
    } else {
      n := FirstFault(host, lines, m - 1);
    }
  }

  /** What a successful open leaves: the finished lines, the last one finished
      when it holds a sample and cut off otherwise, and in either case its bytes
      saved under their offset and digest. */
  lemma OpenLeavesTheLines(env: Env, disk: Disk, lines: seq<Bytes>, rest: Bytes)
    requires disk.checkpoint.None? && Splits(disk.log, lines, rest) && Open(env, disk).result.Ok?
    ensures var after := ApplyAll(disk, Open(env, disk).writes);
            var name := FragmentName(|Join(lines)|, env.host.digest(rest));
            && after.log == Join(lines) + (if Ends(env.host, rest) then rest + [10] else [])
            && after.checkpoint == Some(Open(env, disk).result.value)
            && after.fragments == if rest == [] || name in disk.fragments then disk.fragments
                                  else disk.fragments[name := rest]
  {
    hide Open, Splits, Join, ApplyAll;
    CommittedIsJoin(disk.log, lines, rest);
    OpenCompletes(env, disk);
    assert disk.log == Join(lines) + rest by { WholeLog(disk.log, lines, rest); }
  }

  lemma WholeLog(log: Bytes, lines: seq<Bytes>, rest: Bytes)
    requires Splits(log, lines, rest)
    ensures log == Join(lines) + rest
  {
  }

  // ----- which checkpoints are believed -------------------------------------------------------

  /** What the checkpoint says is checked against the log: owner, evaluator, and
      the last line it covers. */
  predicate Believable(env: Env, log: Bytes, c: Checkpoint) {
    && c.manifestDigest == env.host.digest(env.manifest) && c.evaluatorVersion == env.evaluator
    && (c.offset == 0 ==> c.sequence == 0)
    && (c.offset > 0 ==>
          && c.lastStart < c.offset <= |log| && c.offset - c.lastStart <= 67108864
          && log[c.offset - 1] == 10 && env.host.digest(log[c.lastStart..c.offset]) == c.lastDigest)
  }

  /** A checkpoint that does not fit the log, the manifest or the evaluator is
      ignored; one that fits and covers the whole log is the result. */
  lemma OnlyFittingCheckpointsCount(env: Env, disk: Disk)
    requires disk.checkpoint.Some?
    ensures !Believable(env, disk.log, disk.checkpoint.value) ==>
            Open(env, disk) == Open(env, disk.(checkpoint := None))
    ensures Believable(env, disk.log, disk.checkpoint.value) && disk.checkpoint.value.offset == |disk.log| ==>
              Open(env, disk) == Outcome(Ok(disk.checkpoint.value), [ReplaceCheckpoint(disk.checkpoint.value)])
  {
    var c := disk.checkpoint.value;
    if !Believable(env, disk.log, c) {
      assert Trusted(env, disk) == Initial(env);
      ReplayIgnoresCheckpoint(env, disk, None, Initial(env));
    } else {
      assert Trusted(env, disk) == c;
    }
  }
}
