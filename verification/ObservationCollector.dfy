/** The collector as `observation_store.rs` runs it: a run directory that is
    written in place and an `ObservationLog` whose fields its methods update.
    Each method is proved against the functions of `ObservationStore`. */
module ObservationCollector {
  import opened Basics
  import opened ObservationStore

  /** The directory of one run.  `issued` remembers the order of the writes. */
  class RunDirectory {
    var log: Bytes
    var checkpoint: Option<Checkpoint>
    var fragments: map<FragmentName, Bytes>
    ghost var issued: seq<Write>

    function Contents(): Disk
      reads this
    {
      Disk(log, checkpoint, fragments)
    }

    /** A fresh run, as `observe start` creates it. */
    constructor ()
      ensures Contents() == Disk([], None, map[]) && issued == []
    {
      log, checkpoint, fragments, issued := [], None, map[], [];
    }

    method WriteAtEnd(bytes: Bytes)
      modifies this
      ensures Contents() == Apply(old(Contents()), WriteEnd(bytes))
      ensures issued == old(issued) + [WriteEnd(bytes)]
    {
      log := log + bytes;
      issued := issued + [WriteEnd(bytes)];
    }

    method Truncate(len: nat)
      requires len <= |log|
      modifies this
      ensures Contents() == Apply(old(Contents()), SetLen(len))
      ensures issued == old(issued) + [SetLen(len)]
    {
      log := log[..len];
      issued := issued + [SetLen(len)];
    }

    method Save(name: FragmentName, bytes: Bytes)
      modifies this
      ensures Contents() == Apply(old(Contents()), SaveFragment(name, bytes))
      ensures issued == old(issued) + [SaveFragment(name, bytes)]
    {
      fragments := fragments[name := bytes];
      issued := issued + [SaveFragment(name, bytes)];
    }

    method Store(state: Checkpoint)
      modifies this
      ensures Contents() == Apply(old(Contents()), ReplaceCheckpoint(state))
      ensures issued == old(issued) + [ReplaceCheckpoint(state)]
    {
      checkpoint := Some(state);
      issued := issued + [ReplaceCheckpoint(state)];
    }
  }

  class ObservationLog {
    const env: Env
    const dir: RunDirectory
    var state: Checkpoint
    var recoveries: set<FragmentName>

    constructor Resume(env: Env, dir: RunDirectory, state: Checkpoint)
      ensures this.env == env && this.dir == dir && this.state == state && recoveries == {}
    {
      this.env, this.dir, this.state, this.recoveries := env, dir, state, {};
    }

    /** `open`.  On success the log's state and the writes issued are those of
        the specification; on an error only the writes are. */
    static method OpenRun(env: Env, dir: RunDirectory) returns (r: Result<ObservationLog, Error>)
      modifies dir
      ensures dir.issued == old(dir.issued) + Open(env, old(dir.Contents())).writes
      ensures dir.Contents() == ApplyAll(old(dir.Contents()), Open(env, old(dir.Contents())).writes)
      ensures r.Err? ==> Open(env, old(dir.Contents())).result == Err(r.error)
      ensures r.Ok? ==>
                && fresh(r.value) && r.value.env == env && r.value.dir == dir
                && Open(env, old(dir.Contents())).result == Ok(r.value.state)
                && r.value.recoveries == dir.fragments.Keys
    {
      ghost var disk := dir.Contents();
      var state := Trusted(env, dir.Contents());
      var log := new ObservationLog.Resume(env, dir, state);
      var outcome := log.ReplayTailInPlace();
      if outcome.Err? {
        return Err(outcome.error);
      }
      log.recoveries := dir.fragments.Keys;
      ghost var replayed := ReplayTail(env, disk, state).writes;
      dir.Store(log.state);
      assert Open(env, disk).writes == replayed + [ReplaceCheckpoint(log.state)];
      ApplyOneMore(disk, replayed, ReplaceCheckpoint(log.state));
      return Ok(log);
    }

    /** `replay_tail`: the loop over lines, and the repair of the last one. */
    method ReplayTailInPlace() returns (r: Result<(), Error>)
      modifies this`state, dir
      ensures dir.issued == old(dir.issued) + ReplayTail(env, old(dir.Contents()), old(state)).writes
      ensures dir.Contents() == ApplyAll(old(dir.Contents()), ReplayTail(env, old(dir.Contents()), old(state)).writes)
      ensures r.Ok? ==> ReplayTail(env, old(dir.Contents()), old(state)).result == Ok(state)
      ensures r.Err? ==> ReplayTail(env, old(dir.Contents()), old(state)).result == Err(r.error)
    {
      ghost var disk := dir.Contents();
      ghost var outcome := ReplayTail(env, disk, state);
      while state.offset < |dir.log|
        invariant dir.Contents() == disk && dir.issued == old(dir.issued)
        invariant ReplayTail(env, disk, state) == outcome
        decreases |dir.log| - state.offset
      {
        var bytes := dir.log[state.offset..LineEnd(dir.log, state.offset)];
        var complete := EndsLine(bytes);
        if complete && IsBlank(bytes) {
          state := SkipBlank(env, state, bytes);
          continue;
        }
        var parsed := env.host.parse(bytes);
        if !complete {
          r := FinishLastLine(bytes, parsed);
          return;
        }
        if parsed.None? {
          return Err(Unparsable(state.offset));
        }
        if parsed.value.schemaVersion != SCHEMA_VERSION || parsed.value.sequence != state.sequence + 1 {
          return Err(BadSchemaOrSequence(state.offset));
        }
        AbsorbInPlace(parsed.value, bytes);
      }
      return Ok(());
    }

    /** The last line has no newline: save its bytes, then finish or cut it. */
    method FinishLastLine(bytes: Bytes, parsed: Option<Sample>) returns (r: Result<(), Error>)
      requires parsed == env.host.parse(bytes) && state.offset <= |dir.log|
      modifies this`state, dir
      ensures dir.issued == old(dir.issued) + Repair(env, old(dir.Contents()), old(state), bytes).writes
      ensures dir.Contents() == ApplyAll(old(dir.Contents()),
              Repair(env, old(dir.Contents()), old(state), bytes).writes)
      ensures r.Ok? ==> Repair(env, old(dir.Contents()), old(state), bytes).result == Ok(state)
      ensures r.Err? ==> Repair(env, old(dir.Contents()), old(state), bytes).result == Err(r.error)
    {
      ghost var disk := dir.Contents();
      ghost var writes := Repair(env, disk, state, bytes).writes;
      FirstWrites(disk, writes, |writes|);
      var fragment := FragmentName(state.offset, env.host.digest(bytes));
      if fragment !in dir.fragments {
        dir.Save(fragment, bytes);
      }
      if parsed.None? {
        dir.Truncate(state.offset);
        return Ok(());
      }
      dir.WriteAtEnd([NEWLINE]);
      var sample := parsed.value;
      if sample.schemaVersion != SCHEMA_VERSION || sample.sequence != state.sequence + 1 {
        return Err(BadSchemaOrSequence(state.offset));
      }
      AbsorbInPlace(sample, bytes + [NEWLINE]);
      return Ok(());
    }

    /** `absorb`, field by field: drop tickets no longer ready, keep the start
        of those still ready, start the others now. */
    method AbsorbInPlace(sample: Sample, bytes: Bytes)
      modifies this`state
      ensures state == Absorb(env, old(state), sample, bytes)
    {
      var since := map t | t in state.readySince && t in sample.ready :: state.readySince[t];
      var pending := sample.ready;
      while pending != {}
        invariant pending <= sample.ready
        invariant forall t :: t in sample.ready - pending ==>
                    t in since && since[t] == if t in state.readySince then state.readySince[t] else sample.observedAt
        invariant forall t :: t in pending ==> (t in since <==> t in state.readySince)
        invariant forall t :: t in since ==>
                  t in sample.ready && (t in state.readySince ==> since[t] == state.readySince[t])
        decreases pending
      {
        var t :| t in pending;
        if t !in since {
          since := since[t := sample.observedAt];
        }
        pending := pending - {t};
      }
      assert since == Absorb(env, state, sample, bytes).readySince;
      state := state.(readySince := since);
      state := state.(progress := env.host.advance(env.evaluator, env.manifest, state.progress, sample));
      if sample.eventCursor.Some?
          && (state.eventCursor.None? || Less(state.eventCursor.value, sample.eventCursor.value)) {
        state := state.(eventCursor := sample.eventCursor);
      }
      state := state.(sequence := sample.sequence, lastObserved := Some(sample.observedAt));
      state := state.(lastStart := state.offset);
      state := state.(offset := state.offset + |bytes|, lastDigest := env.host.digest(bytes));
    }

    /** `append`: refuse, or write, absorb and checkpoint in that order. */
    method AppendSample(sample: Sample) returns (r: Result<(), Error>)
      modifies this`state, this`recoveries, dir
      ensures dir.issued == old(dir.issued) + Append(env, old(dir.Contents()), old(state), sample).writes
      ensures dir.Contents() == ApplyAll(old(dir.Contents()),
              Append(env, old(dir.Contents()), old(state), sample).writes)
      ensures r.Ok? ==> Append(env, old(dir.Contents()), old(state), sample).result == Ok(state) && recoveries == {}
      ensures r.Err? ==>
                && Append(env, old(dir.Contents()), old(state), sample).result == Err(r.error)
                && state == old(state) && recoveries == old(recoveries)
    {
      ghost var disk := dir.Contents();
      ghost var writes := Append(env, disk, state, sample).writes;
      FirstWrites(disk, writes, |writes|);
      if sample.sequence != state.sequence + 1 {
        return Err(SequenceChanged);
      }
      if |dir.log| != state.offset {
        return Err(LogChangedOutside);
      }
      var bytes := env.host.serialise(sample) + [NEWLINE];
      dir.WriteAtEnd(bytes);
      AbsorbInPlace(sample, bytes);
      dir.Store(state);
      recoveries := {};
      return Ok(());
    }

    /** `ready_age`: whole seconds since the ticket's current run began. */
    function ReadyAge(ticket: string, now: Time): nat
      reads this
    {
      ReadyAgeAt(state, ticket, now)
    }

    /** `gap`: whole seconds since the last sample, or since the run started. */
    function Gap(start: Time, now: Time): nat
      reads this
    {
      GapAt(state, start, now)
    }
  }

  lemma ApplyOneMore(disk: Disk, writes: seq<Write>, w: Write)
    ensures ApplyAll(disk, writes + [w]) == Apply(ApplyAll(disk, writes), w)
  {
    SameFirst(disk, writes, [w], |writes|);
  }

  lemma {:induction false} SameFirst(disk: Disk, writes: seq<Write>, more: seq<Write>, k: nat)
    requires k <= |writes|
    ensures ApplyFirst(disk, writes + more, k) == ApplyFirst(disk, writes, k)
  {
    if k > 0 {
      SameFirst(disk, writes, more, k - 1);
    }
  }
}
