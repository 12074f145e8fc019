/** `rk daemon rollover` of `main.rs`: drain, stop, wait for the exit, confirm the
    replacement, respawn.  The daemon, the process table and the clock answer
    whatever a script says; the results hold for every script. */
module Rollover {
  import opened Basics

  type SpawnId = nat

  /** One row of an agent list; absent or unreadable fields are `None`. */
  datatype Agent = Agent(name: Option<string>, spawn: Option<SpawnId>, state: Option<string>)

  datatype Generation = Generation(name: string, spawn: SpawnId)

  datatype Call =
    | Connect
    | ConnectOrSpawn
    | Status
    | PauseDispatch
    | ResumeDispatch
    | ListAgents
    | Stop
    | Respawn(generation: Generation)
    | Probe(pid: nat)

  /** An error, or an answer in which every field may be missing. */
  datatype Reply =
    | Failed(error: string)
    | Answer(
        pid: Option<nat>,
        build: Option<string>,
        liveAgents: Option<seq<Agent>>,
        agents: Option<seq<Agent>>,
        signature: Option<string>)

  datatype Exchange = Exchange(call: Call, reply: Reply)

  datatype Error =
    | NotRunning
    | CallFailed(call: Call, error: string)
    | OldInstanceStillAlive
    | NotReplaced

  datatype Report = Report(respawned: seq<string>, failed: seq<(string, string)>)

  const LOST := Failed("connection lost")

  // ----- reading replies -----------------------------------------------------------

  /** Rows with a name and a readable spawn id; the rest are skipped. */
  function GenerationsIn(rows: seq<Agent>): seq<Generation> {
    if rows == [] then []
    else
      var rest := GenerationsIn(rows[1..]);
      if rows[0].name.Some? && rows[0].spawn.Some?
      then [Generation(rows[0].name.value, rows[0].spawn.value)] + rest else rest
  }

  function Generations(agents: Option<seq<Agent>>): seq<Generation> {
    if agents.None? then [] else GenerationsIn(agents.value)
  }

  function SpawnsIn(agents: Option<seq<Agent>>, states: set<string>): set<SpawnId> {
    if agents.None? then {}
    else set a | a in agents.value && a.state.Some? && a.state.value in states && a.spawn.Some? :: a.spawn.value
  }

  const LIVE_STATES := {"running", "spawning"}
  const ORPHANED_STATES := {"orphaned"}

  function Retain(live: seq<Generation>, spawns: set<SpawnId>): seq<Generation> {
    if live == [] then []
    else if live[0].spawn in spawns then [live[0]] + Retain(live[1..], spawns)
    else Retain(live[1..], spawns)
  }

  // ----- what a trace says ---------------------------------------------------------

  type Trace = seq<Exchange>

  ghost predicate Never(trace: Trace, from: nat, call: Call) {
    forall i :: from <= i < |trace| ==> trace[i].call != call
  }

  /** Once stop was called, dispatch is never resumed. */
  ghost predicate NeverResumedAfterStop(trace: Trace) {
    forall i, j :: 0 <= i < j < |trace| && trace[i].call == Stop ==> trace[j].call != ResumeDispatch
  }

  /** A run that paused dispatch and never called stop ends by resuming it. */
  ghost predicate PauseIsUndone(trace: Trace) {
    !Never(trace, 0, PauseDispatch) && Never(trace, 0, Stop) ==> trace[|trace| - 1].call == ResumeDispatch
  }

  /** Every agent list between two positions shows the spawn in one of these
      states. */
  ghost predicate ListedIn(trace: Trace, lo: nat, hi: nat, states: set<string>, spawn: SpawnId) {
    forall i :: lo <= i < hi && i < |trace| && trace[i].call == ListAgents && trace[i].reply.Answer? ==>
      spawn in SpawnsIn(trace[i].reply.agents, states)
  }

  ghost function Select(live: seq<Generation>, trace: Trace, lo: nat, hi: nat, states: set<string>): seq<Generation> {
    if live == [] then []
    else
      var rest := Select(live[1..], trace, lo, hi, states);
      if ListedIn(trace, lo, hi, states, live[0].spawn) then [live[0]] + rest else rest
  }

  /** The generations live when dispatch was paused at `p`, live at every poll
      before the stop at `s`, and orphaned in every list after it. */
  ghost function Parked(trace: Trace, p: nat, s: nat): seq<Generation>
    requires p < |trace| && trace[p].reply.Answer?
  {
    var drained := Select(Generations(trace[p].reply.liveAgents), trace, p + 1, s, LIVE_STATES);
    Select(drained, trace, s + 1, |trace|, ORPHANED_STATES)
  }

  /** The respawns called, in order, and what became of them. */
  function Attempted(trace: Trace): seq<Generation> {
    if trace == [] then []
    else
      var last := trace[|trace| - 1];
      Attempted(trace[..|trace| - 1]) + if last.call.Respawn? then [last.call.generation] else []
  }

  function ReportOf(trace: Trace): Report {
    if trace == [] then Report([], [])
    else
      var before, last := ReportOf(trace[..|trace| - 1]), trace[|trace| - 1];
      if !last.call.Respawn? then before
      else if last.reply.Failed? then before.(failed := before.failed + [(last.call.generation.name, last.reply.error)])
      else before.(respawned := before.respawned + [last.call.generation.name])
  }

  /** The start time that a probe reply shows, if any. */
  function SignatureIn(reply: Reply): Option<string> {
    if reply.Answer? then reply.signature else None
  }

  /** The reply shows a process that started at `start`. */
  predicate ShowsStart(reply: Reply, start: string) {
    reply.Answer? && reply.signature == Some(start)
  }

  /** The start time of the old process was read, right after its status at `o`. */
  predicate KnownStart(trace: Trace, o: nat)
    requires o + 1 < |trace|
  {
    && trace[o].reply.Answer? && trace[o].reply.pid.Some? && trace[o + 1].call == Probe(trace[o].reply.pid.value)
    && trace[o + 1].reply.Answer? && trace[o + 1].reply.signature.Some?
  }

  /** The old process was seen gone at `w`: a probe of its pid no longer shows the
      start time it had, or, only if that was never known, its socket refuses. */
  predicate GoneAt(trace: Trace, o: nat, w: nat)
    requires o + 1 < |trace| && w < |trace|
  {
    if KnownStart(trace, o)
    then trace[w].call == trace[o + 1].call && !ShowsStart(trace[w].reply, trace[o + 1].reply.signature.value)
    else trace[w].call == Connect && trace[w].reply.Failed?
  }

  /** In this order: a status naming the old process, an accepted stop, the old
      process seen gone, a status of another process with the expected build. */
  ghost predicate Replacement(trace: Trace, o: nat, s: nat, w: nat, n: nat, expected: string) {
    && o < s < w < n < |trace|
    && trace[o].call == Status && trace[o].reply.Answer? && trace[o].reply.pid.Some?
    && trace[s].call == Stop && trace[s].reply.Answer?
    && GoneAt(trace, o, w)
    && trace[n].call == Status && trace[n].reply.Answer? && trace[n].reply.pid.Some?
    && trace[n].reply.pid != trace[o].reply.pid && trace[n].reply.build == Some(expected)
  }

  ghost predicate RespawnsOnlyReplaced(trace: Trace, expected: string) {
    forall j :: 0 <= j < |trace| && trace[j].call.Respawn? ==>
      exists o, s, w, n :: 0 <= n < j && Replacement(trace, o, s, w, n, expected)
  }

  /** The pause listed the generation as live. */
  predicate WasLive(reply: Reply, g: Generation) {
    && reply.Answer? && reply.liveAgents.Some?
    && exists a :: a in reply.liveAgents.value && a.name == Some(g.name) && a.spawn == Some(g.spawn)
  }

  /** An agent list with a row of this spawn in a live state. */
  predicate IsLive(reply: Reply, spawn: SpawnId) {
    && reply.Answer? && reply.agents.Some?
    && exists a :: a in reply.agents.value && a.spawn == Some(spawn)
                   && (a.state == Some("running") || a.state == Some("spawning"))
  }

  /** An agent list with an orphaned row of this spawn. */
  predicate IsOrphaned(reply: Reply, spawn: SpawnId) {
    && reply.Answer? && reply.agents.Some?
    && exists a :: a in reply.agents.value && a.spawn == Some(spawn) && a.state == Some("orphaned")
  }

  /** Whatever is respawned was listed as orphaned after an accepted stop. */
  ghost predicate RespawnsOnlyOrphans(trace: Trace) {
    forall j :: 0 <= j < |trace| && trace[j].call.Respawn? ==>
      exists s, n :: && 0 <= s < n < j && trace[s].call == Stop && trace[s].reply.Answer?
                     && trace[n].call == ListAgents && IsOrphaned(trace[n].reply, trace[j].call.generation.spawn)
  }

  /** Respawned are exactly the generations live at the pause, live in every poll
      between pause and stop, and orphaned in a list after the stop. */
  ghost predicate RespawnsExactly(trace: Trace, p: nat, s: nat) {
    && p < s < |trace|
    && forall g: Generation ::
         (exists j :: 0 <= j < |trace| && trace[j].call == Respawn(g)) <==>
           && WasLive(trace[p].reply, g)
           && (forall i :: p < i < s && trace[i].call == ListAgents ==> IsLive(trace[i].reply, g.spawn))
           && exists n :: s < n < |trace| && trace[n].call == ListAgents && IsOrphaned(trace[n].reply, g.spawn)
  }

  /** `b` extends `a` by a pause and then polls. */
  ghost predicate Draining(a: Trace, b: Trace) {
    && a < b && b[|a|].call == PauseDispatch
    && forall i :: |a| < i < |b| ==> b[i].call == ListAgents
  }

  /** Calls that neither admit nor refuse work, stop a daemon, or respawn. */
  predicate Observes(call: Call) {
    call == Connect || call == ConnectOrSpawn || call == Status || call.Probe?
  }

  ghost predicate Observing(a: Trace, b: Trace) {
    a <= b && forall i :: |a| <= i < |b| ==> Observes(b[i].call)
  }

  // ----- trace lemmas --------------------------------------------------------------

  lemma {:induction false} SelectSnoc(live: seq<Generation>, trace: Trace, e: Exchange, lo: nat, states: set<string>)
    requires lo <= |trace|
    ensures Select(live, trace + [e], lo, |trace| + 1, states) ==
            var before := Select(live, trace, lo, |trace|, states);
            if e.call == ListAgents && e.reply.Answer? then Retain(before, SpawnsIn(e.reply.agents, states)) else before
  {
    if live != [] {
      SelectSnoc(live[1..], trace, e, lo, states);
      var more := trace + [e];
      assert forall i :: 0 <= i < |trace| ==> more[i] == trace[i];
      var spawn := live[0].spawn;
      assert ListedIn(more, lo, |trace| + 1, states, spawn) <==>
        ListedIn(trace, lo, |trace|, states, spawn) &&
        (e.call == ListAgents && e.reply.Answer? ==> spawn in SpawnsIn(e.reply.agents, states)) by {
        assert more[|trace|] == e;
      }
    }
  }

  lemma {:induction false} SelectAgrees(live: seq<Generation>, a: Trace, b: Trace, lo: nat, hi: nat,
      states: set<string>)
    requires a <= b && hi <= |a|
    ensures Select(live, a, lo, hi, states) == Select(live, b, lo, hi, states)
  {
    if live != [] {
      SelectAgrees(live[1..], a, b, lo, hi, states);
      assert forall i :: 0 <= i < |a| ==> a[i] == b[i];
    }
  }

  lemma {:induction false} SelectAll(live: seq<Generation>, trace: Trace, lo: nat, hi: nat, states: set<string>)
    requires forall i :: lo <= i < hi && i < |trace| ==> trace[i].call != ListAgents
    ensures Select(live, trace, lo, hi, states) == live
  {
    if live != [] {
      SelectAll(live[1..], trace, lo, hi, states);
    }
  }

  lemma SpawnsMean(reply: Reply, spawn: SpawnId)
    requires reply.Answer?
    ensures spawn in SpawnsIn(reply.agents, LIVE_STATES) <==> IsLive(reply, spawn)
    ensures spawn in SpawnsIn(reply.agents, ORPHANED_STATES) <==> IsOrphaned(reply, spawn)
  {
    assert forall state: string :: state in LIVE_STATES <==> state == "running" || state == "spawning";
    assert forall state: string :: state in ORPHANED_STATES <==> state == "orphaned";
  }

  lemma {:induction false} GenerationsMembers(rows: seq<Agent>, g: Generation)
    ensures g in GenerationsIn(rows) <==> exists a :: a in rows && a.name == Some(g.name) && a.spawn == Some(g.spawn)
  {
    if rows != [] {
      GenerationsMembers(rows[1..], g);
      assert rows == [rows[0]] + rows[1..];
    }
  }

  lemma PausedMeans(reply: Reply, g: Generation)
    requires reply.Answer?
    ensures g in Generations(reply.liveAgents) <==> WasLive(reply, g)
  {
    if reply.liveAgents.Some? {
      GenerationsMembers(reply.liveAgents.value, g);
    }
  }

  lemma {:induction false} SelectMembers(live: seq<Generation>, trace: Trace, lo: nat, hi: nat, states: set<string>)
    ensures forall g :: g in Select(live, trace, lo, hi, states) <==>
            g in live && ListedIn(trace, lo, hi, states, g.spawn)
  {
    hide ListedIn;
    if live != [] {
      SelectMembers(live[1..], trace, lo, hi, states);
      assert live == [live[0]] + live[1..];
    }
  }

  lemma {:induction false} AttemptedMembers(trace: Trace, g: Generation)
    ensures g in Attempted(trace) <==> exists j :: 0 <= j < |trace| && trace[j].call == Respawn(g)
  {
    if trace != [] {
      var n := |trace| - 1;
      AttemptedMembers(trace[..n], g);
      assert forall j :: 0 <= j < n ==> trace[..n][j] == trace[j];
    }
  }

  /** Who is left after the drain: live at the pause and in every poll.  A generation
      that drops out has a poll without a live row of it. */
  lemma DrainedMeans(trace: Trace, p: nat, s: nat, g: Generation)
    requires p < s <= |trace| && trace[p].reply.Answer?
    requires forall i :: p < i < s ==> trace[i].reply.Answer?
    ensures g in Select(Generations(trace[p].reply.liveAgents), trace, p + 1, s, LIVE_STATES) <==>
              && WasLive(trace[p].reply, g)
              && forall i :: p < i < s && trace[i].call == ListAgents ==> IsLive(trace[i].reply, g.spawn)
  {
    hide Generations, WasLive, Select, SpawnsIn, IsLive;
    SelectMembers(Generations(trace[p].reply.liveAgents), trace, p + 1, s, LIVE_STATES);
    PausedMeans(trace[p].reply, g);
    forall i | p < i < s
      ensures g.spawn in SpawnsIn(trace[i].reply.agents, LIVE_STATES) <==> IsLive(trace[i].reply, g.spawn)
    {
      SpawnsMean(trace[i].reply, g.spawn);
    }
  }

  // ----- the environment ---------------------------------------------------------------

  /** Replies and clock readings come from a script of any length; when it runs
      out every call fails, every process is gone and every deadline has passed. */
  class World {
    ghost var trace: Trace
    ghost var clock: seq<bool>
    var replies: seq<Reply>
    var ticks: seq<bool>

    constructor (replies: seq<Reply>, ticks: seq<bool>)
      ensures trace == [] && clock == [] && this.replies == replies && this.ticks == ticks
    {
      trace, clock, this.replies, this.ticks := [], [], replies, ticks;
    }

    method Ask(call: Call) returns (reply: Reply)
      modifies this`trace, this`replies
      ensures trace == old(trace) + [Exchange(call, reply)]
    {
      reply := LOST;
      if replies != [] {
        reply, replies := replies[0], replies[1..];
      }
      trace := trace + [Exchange(call, reply)];
    }

    method DeadlinePassed() returns (passed: bool)
      modifies this`ticks, this`clock
      ensures !passed ==> |ticks| < |old(ticks)|
      ensures clock == old(clock) + [passed]
    {
      passed := true;
      if ticks != [] {
        passed, ticks := ticks[0], ticks[1..];
      }
      clock := clock + [passed];
    }
  }

  /** The last time the clock was read since, the deadline had passed. */
  ghost predicate TimeUp(before: seq<bool>, clock: seq<bool>) {
    |before| < |clock| && clock[|clock| - 1]
  }

  /** The last exchange is the failed call that the error is about. */
  ghost predicate EndsInFailure(trace: Trace, error: Error) {
    error.CallFailed? && trace != [] && trace[|trace| - 1] == Exchange(error.call, Failed(error.error))
  }

  /** `process_signature`: the start time of a process, if it can be read. */
  method ProcessSignature(world: World, pid: nat) returns (signature: Option<string>)
    modifies world`trace, world`replies
    ensures exists reply :: && world.trace == old(world.trace) + [Exchange(Probe(pid), reply)]
                            && signature == SignatureIn(reply)
  {
    var reply := world.Ask(Probe(pid));
    signature := SignatureIn(reply);
  }

  // ----- the protocol ----------------------------------------------------------------------

  /** `rollover_drain`: pause, then poll until nobody is live or time is up. */
  method RolloverDrain(world: World) returns (r: Result<seq<Generation>, Error>)
    modifies world
    ensures Draining(old(world.trace), world.trace)
    ensures r.Ok? ==>
              var pause := world.trace[|old(world.trace)|].reply;
              && pause.Answer?
              && r.value == Select(Generations(pause.liveAgents), world.trace, |old(world.trace)| + 1, |world.trace|,
                                   LIVE_STATES)
              && (r.value != [] ==> TimeUp(old(world.clock), world.clock))
              && (forall i :: |old(world.trace)| <= i < |world.trace| ==> world.trace[i].reply.Answer?)
    ensures r.Err? ==> EndsInFailure(world.trace, r.error)
  {
    hide Select, ListedIn, SpawnsIn, Generations;
    ghost var p := |world.trace|;
    var pause := world.Ask(PauseDispatch);
    if pause.Failed? {
      return Err(CallFailed(PauseDispatch, pause.error));
    }
    var live := Generations(pause.liveAgents);
    SelectAll(live, world.trace, p + 1, |world.trace|, LIVE_STATES);
    while live != []
      invariant Draining(old(world.trace), world.trace) && world.trace[p].reply == pause
      invariant forall i :: p <= i < |world.trace| ==> world.trace[i].reply.Answer?
      invariant |old(world.clock)| <= |world.clock|
      invariant live == Select(Generations(pause.liveAgents), world.trace, p + 1, |world.trace|, LIVE_STATES)
      decreases |world.ticks|
    {
      var passed := world.DeadlinePassed();
      if passed {
        break;
      }
      ghost var before := world.trace;
      var list := world.Ask(ListAgents);
      SelectSnoc(Generations(pause.liveAgents), before, Exchange(ListAgents, list), p + 1, LIVE_STATES);
      if list.Failed? {
        return Err(CallFailed(ListAgents, list.error));
      }
      live := Retain(live, SpawnsIn(list.agents, LIVE_STATES));
    }
    return Ok(live);
  }

  /** `wait_for_old_instance_exit` */
  method WaitForOldInstanceExit(world: World, oldPid: Option<nat>, oldSignature: Option<string>) returns (exited: bool)
    modifies world
    ensures Observing(old(world.trace), world.trace) && old(world.trace) < world.trace
    ensures exited ==> Departed(world.trace[|world.trace| - 1], oldPid, oldSignature)
    ensures !exited ==> TimeUp(old(world.clock), world.clock)
    ensures !exited ==> Remains(world.trace[|world.trace| - 1], oldPid, oldSignature)
  {
    var passed := false;
    while true
      invariant Observing(old(world.trace), world.trace)
      invariant |old(world.clock)| <= |world.clock|
      decreases |world.ticks|
    {
      if oldPid.Some? && oldSignature.Some? {
        var now := ProcessSignature(world, oldPid.value);
        exited := now != oldSignature;
      } else {
        var reply := world.Ask(Connect);
        exited := reply.Failed?;
      }
      if exited {
        return;
      }
      passed := world.DeadlinePassed();
      if passed {
        return;
      }
    }
  }

  /** The run began by reading this identity: a status, and if it named a pid, a
      probe of it. */
  ghost predicate Identified(trace: Trace, oldPid: Option<nat>, oldSignature: Option<string>) {
    && |trace| == (if oldPid.Some? then 3 else 2)
    && trace[1].call == Status && trace[1].reply.Answer? && trace[1].reply.pid == oldPid
    && (oldPid.Some? ==> trace[2].call == Probe(oldPid.value) && SignatureIn(trace[2].reply) == oldSignature)
    && (oldPid.None? ==> oldSignature.None?)
  }

  /** The identity of the outgoing instance, taken while it still answers. */
  method Identify(world: World) returns (r: Result<(Option<nat>, Option<string>), Error>)
    requires world.trace == []
    modifies world
    ensures Observing([], world.trace)
    ensures r.Ok? ==> Identified(world.trace, r.value.0, r.value.1)
    ensures r.Err? ==>
              if r.error == NotRunning then
                |world.trace| == 1 && world.trace[0].call == Connect && world.trace[0].reply.Failed?
              else EndsInFailure(world.trace, r.error)
  {
    var connected := world.Ask(Connect);
    if connected.Failed? {
      return Err(NotRunning);
    }
    var status := world.Ask(Status);
    if status.Failed? {
      return Err(CallFailed(Status, status.error));
    }
    var signature := None;
    if status.pid.Some? {
      signature := ProcessSignature(world, status.pid.value);
    }
    return Ok((status.pid, signature));
  }

  /** Wait for the old process to be gone, then accept only a different process
      that runs the expected build. */
  method ConfirmReplacement(world: World, oldPid: Option<nat>, oldSignature: Option<string>, expected: string)
    returns (r: Result<(), Error>)
    modifies world
    ensures Observing(old(world.trace), world.trace)
    ensures r.Ok? ==>
              exists w :: |old(world.trace)| <= w < |world.trace| - 1
                          && Departed(world.trace[w], oldPid, oldSignature)
                          && Succeeds(world.trace[|world.trace| - 1], oldPid, expected)
    ensures r.Err? ==> Unconfirmed(world.trace, old(world.clock), world.clock, r.error, oldPid, oldSignature, expected)
  {
    var exited := WaitForOldInstanceExit(world, oldPid, oldSignature);
    if !exited {
      return Err(OldInstanceStillAlive);
    }
    ghost var w := |world.trace| - 1;
    var reconnected := world.Ask(ConnectOrSpawn);
    if reconnected.Failed? {
      return Err(CallFailed(ConnectOrSpawn, reconnected.error));
    }
    var status := world.Ask(Status);
    if status.Failed? {
      return Err(CallFailed(Status, status.error));
    }
    var replaced := status.pid.Some? && oldPid.Some? && status.build.Some?
                    && status.pid != oldPid && status.build.value == expected;
    if !replaced {
      return Err(NotReplaced);
    }
    assert Departed(world.trace[w], oldPid, oldSignature);
    return Ok(());
  }

  /** Why a replacement was not confirmed: the old process was still there when
      time was up, the last status does not show a successor, or a call failed. */
  ghost predicate Unconfirmed(trace: Trace, before: seq<bool>, clock: seq<bool>, error: Error, oldPid: Option<nat>,
                              oldSignature: Option<string>, expected: string)
  {
    && trace != []
    && var last := trace[|trace| - 1];
       if error == OldInstanceStillAlive then TimeUp(before, clock) && Remains(last, oldPid, oldSignature)
       else if error == NotReplaced then last.call == Status && last.reply.Answer? && !Succeeds(last, oldPid, expected)
       else error.CallFailed? && EndsInFailure(trace, error)
  }

  predicate Departed(e: Exchange, oldPid: Option<nat>, oldSignature: Option<string>) {
    if oldPid.Some? && oldSignature.Some?
    then e.call == Probe(oldPid.value) && SignatureIn(e.reply) != oldSignature
    else e.call == Connect && e.reply.Failed?
  }

  predicate Remains(e: Exchange, oldPid: Option<nat>, oldSignature: Option<string>) {
    && e.reply.Answer?
    && if oldPid.Some? && oldSignature.Some? then e.call == Probe(oldPid.value) && e.reply.signature == oldSignature
       else e.call == Connect
  }

  predicate Succeeds(e: Exchange, oldPid: Option<nat>, expected: string) {
    && e.call == Status && e.reply.Answer? && e.reply.pid.Some? && oldPid.Some?
    && e.reply.pid != oldPid && e.reply.build == Some(expected)
  }

  /** `b` extends `a` by lists and respawns. */
  ghost predicate Reconciling(a: Trace, b: Trace) {
    a <= b && forall i :: |a| <= i < |b| ==> b[i].call == ListAgents || b[i].call.Respawn?
  }

  /** `b` extends `a` by nothing if nobody is parked, otherwise by one answered list
      and then respawns. */
  ghost predicate ListedOnce(a: Trace, b: Trace, parked: seq<Generation>) {
    && a <= b && (parked == [] ==> a == b)
    && (parked != [] ==> |a| < |b| && b[|a|].call == ListAgents && b[|a|].reply.Answer?)
    && forall i :: |a| < i < |b| ==> b[i].call.Respawn?
  }

  ghost predicate NoRespawn(trace: Trace) {
    forall i :: 0 <= i < |trace| ==> !trace[i].call.Respawn?
  }

  lemma {:induction false} NothingAttempted(trace: Trace)
    requires NoRespawn(trace)
    ensures Attempted(trace) == [] && ReportOf(trace) == Report([], [])
  {
    if trace != [] {
      NothingAttempted(trace[..|trace| - 1]);
    }
  }

  lemma OneMoreExchange(trace: Trace, e: Exchange)
    ensures Attempted(trace + [e]) == Attempted(trace) + if e.call.Respawn? then [e.call.generation] else []
    ensures ReportOf(trace + [e]) ==
            if !e.call.Respawn? then ReportOf(trace)
            else if e.reply.Failed? then
              ReportOf(trace).(failed := ReportOf(trace).failed + [(e.call.generation.name, e.reply.error)])
            else ReportOf(trace).(respawned := ReportOf(trace).respawned + [e.call.generation.name])
  {
    assert (trace + [e])[..|trace|] == trace;
  }

  /** Respawn the parked generations that the restart orphaned, each once and in
      order, and record what became of each. */
  method Reconcile(world: World, parked: seq<Generation>) returns (r: Result<Report, Error>)
    requires NoRespawn(world.trace)
    modifies world
    ensures Reconciling(old(world.trace), world.trace)
    ensures r.Ok? ==> Attempted(world.trace) ==
                      Select(parked, world.trace, |old(world.trace)|, |world.trace|, ORPHANED_STATES)
    ensures r.Ok? ==> r.value == ReportOf(world.trace) && ListedOnce(old(world.trace), world.trace, parked)
    ensures r.Err? ==> EndsInFailure(world.trace, r.error) && NoRespawn(world.trace)
  {
    hide Select, ListedIn, SpawnsIn, Attempted, ReportOf;
    ghost var from := |world.trace|;
    var live := parked;
    var report := Report([], []);
    NothingAttempted(world.trace);
    SelectAll(live, world.trace, from, from, ORPHANED_STATES);
    if live != [] {
      ghost var before := world.trace;
      var list := world.Ask(ListAgents);
      SelectSnoc(parked, before, Exchange(ListAgents, list), from, ORPHANED_STATES);
      OneMoreExchange(before, Exchange(ListAgents, list));
      if list.Failed? {
        return Err(CallFailed(ListAgents, list.error));
      }
      live := Retain(live, SpawnsIn(list.agents, ORPHANED_STATES));
      for k := 0 to |live|
        invariant Reconciling(old(world.trace), world.trace) && ListedOnce(old(world.trace), world.trace, parked)
        invariant live == Select(parked, world.trace, from, |world.trace|, ORPHANED_STATES)
        invariant Attempted(world.trace) == live[..k] && report == ReportOf(world.trace)
      {
        ghost var soFar := world.trace;
        var reply := world.Ask(Respawn(live[k]));
        SelectSnoc(parked, soFar, Exchange(Respawn(live[k]), reply), from, ORPHANED_STATES);
        OneMoreExchange(soFar, Exchange(Respawn(live[k]), reply));
        if reply.Failed? {
          report := report.(failed := report.failed + [(live[k].name, reply.error)]);
        } else {
          report := report.(respawned := report.respawned + [live[k].name]);
        }
      }
    }
    return Ok(report);
  }

  // ----- whole runs ---------------------------------------------------------------------------

  /** A run that ended before `stop`: observe, perhaps drain, perhaps resume. */
  lemma EndedBeforeStop(identified: Trace, drained: Trace, trace: Trace, expected: string)
    requires Observing([], identified)
    requires trace == identified
             || (Draining(identified, drained) && exists reply :: trace == drained + [Exchange(ResumeDispatch, reply)])
    ensures NeverResumedAfterStop(trace) && PauseIsUndone(trace) && RespawnsOnlyReplaced(trace, expected)
    ensures RespawnsOnlyOrphans(trace)
    ensures trace == identified ==> Never(trace, 0, PauseDispatch)
  {
    assert forall i :: 0 <= i < |identified| ==> Observes(identified[i].call);
    assert forall i :: 0 <= i < |trace| ==> trace[i].call != Stop && !trace[i].call.Respawn?;
  }

  /** A run that called `stop` at `s` and went on. */
  lemma WentPastStop(identified: Trace, drained: Trace, confirmed: Trace, trace: Trace)
    requires Observing([], identified) && Draining(identified, drained)
    requires drained < confirmed && confirmed[|drained|].call == Stop
    requires Observing(confirmed[..|drained| + 1], confirmed) && Reconciling(confirmed, trace)
    ensures NeverResumedAfterStop(trace) && PauseIsUndone(trace)
    ensures forall i :: 0 <= i < |trace| && trace[i].call.Respawn? ==> |confirmed| <= i
    ensures NoRespawn(confirmed)
  {
    var s := |drained|;
    forall i | 0 <= i < |confirmed|
      ensures trace[i] == confirmed[i]
      ensures i != s ==> confirmed[i].call != Stop && !confirmed[i].call.Respawn?
    {
      if i < |identified| {
        assert Observes(identified[i].call) && confirmed[i] == drained[i] == identified[i];
      } else if i < s {
        assert confirmed[i] == drained[i];
      } else if i > s {
        assert Observes(confirmed[i].call);
      }
    }
    assert trace[s].call == Stop;
    assert forall i :: s < i < |trace| ==> trace[i].call != ResumeDispatch;
  }

  lemma StopFailedRun(identified: Trace, drained: Trace, confirmed: Trace, expected: string)
    requires Observing([], identified) && Draining(identified, drained)
    requires drained < confirmed && confirmed[|drained|].call == Stop
    requires Observing(confirmed[..|drained| + 1], confirmed)
    ensures NeverResumedAfterStop(confirmed) && PauseIsUndone(confirmed) && RespawnsOnlyReplaced(confirmed, expected)
    ensures RespawnsOnlyOrphans(confirmed)
  {
    WentPastStop(identified, drained, confirmed, confirmed);
  }

  /** The evidence for a replacement, found in the trace of the confirmation. */
  lemma ReplacementFound(identified: Trace, drained: Trace, confirmed: Trace, oldPid: Option<nat>,
                         oldSignature: Option<string>, w: nat, expected: string)
    requires Identified(identified, oldPid, oldSignature)
    requires Draining(identified, drained) && drained < confirmed
    requires confirmed[|drained|].call == Stop && confirmed[|drained|].reply.Answer?
    requires |drained| < w < |confirmed| - 1
    requires Departed(confirmed[w], oldPid, oldSignature)
    requires Succeeds(confirmed[|confirmed| - 1], oldPid, expected)
    ensures Replacement(confirmed, 1, |drained|, w, |confirmed| - 1, expected)
  {
    assert confirmed[1] == drained[1] == identified[1];
    assert confirmed[2] == drained[2] == identified[2];
    assert KnownStart(confirmed, 1) <==> oldSignature.Some?;
  }

  lemma ReplacementStays(a: Trace, b: Trace, o: nat, s: nat, w: nat, n: nat, expected: string)
    requires a <= b && Replacement(a, o, s, w, n, expected)
    ensures Replacement(b, o, s, w, n, expected)
  {
    assert forall i :: 0 <= i < |a| ==> b[i] == a[i];
  }

  /** `daemon_rollover`; `expected` is the build this binary was installed with.
      Whatever the environment does: dispatch is never resumed after stop was
      called, and always resumed when stop was not; respawns follow a confirmed
      replacement; and on success the respawned and failed generations are
      exactly those live at the pause, live at every poll, and orphaned after. */
  method DaemonRollover(world: World, expected: string) returns (r: Result<Report, Error>)
    requires world.trace == []
    modifies world
    ensures NeverResumedAfterStop(world.trace)
    ensures PauseIsUndone(world.trace)
    ensures RespawnsOnlyReplaced(world.trace, expected)
    ensures RespawnsOnlyOrphans(world.trace)
    ensures r.Ok? ==>
              exists p, s :: && 0 <= p < s < |world.trace|
                             && world.trace[p].call == PauseDispatch && world.trace[p].reply.Answer?
                             && world.trace[s].call == Stop && world.trace[s].reply.Answer?
                             && Attempted(world.trace) == Parked(world.trace, p, s)
                             && RespawnsExactly(world.trace, p, s)
    ensures r.Ok? ==> r.value == ReportOf(world.trace)
    ensures r.Err? ==> Justified(world.trace, world.clock, r.error, expected)
  {
    hide Justified, Unconfirmed, TimeUp, EndsInFailure, Succeeds, Departed, Replacement;
    hide Select, Attempted, ReportOf, Generations, Parked, NeverResumedAfterStop, PauseIsUndone, RespawnsOnlyReplaced,
         RespawnsOnlyOrphans, RespawnsExactly, ListedOnce;
    var identity := Identify(world);
    ghost var identified := world.trace;
    if identity.Err? {
      EndedBeforeStop(identified, identified, world.trace, expected);
      NotIdentified(world.trace, world.clock, identity.error, expected);
      return Err(identity.error);
    }
    var oldPid, oldSignature := identity.value.0, identity.value.1;
    var drain := RolloverDrain(world);
    ghost var drained := world.trace;
    ghost var p := |identified|;
    if drain.Err? {
      var _ := world.Ask(ResumeDispatch);
      EndedBeforeStop(identified, drained, world.trace, expected);
      FailureJustified(drained, world.trace, world.clock, drain.error, expected);
      return Err(drain.error);
    }
    var live := drain.value;
    var stop := world.Ask(Stop);
    ghost var stopped := world.trace;
    assert stopped[..|drained| + 1] == stopped;
    if stop.Failed? {
      StopFailedRun(identified, drained, stopped, expected);
      StopJustified(stopped, world.clock, stop.error, expected);
      return Err(CallFailed(Stop, stop.error));
    }
    ghost var ticking := world.clock;
    var replaced := ConfirmReplacement(world, oldPid, oldSignature, expected);
    ghost var confirmed := world.trace;
    assert confirmed[..|drained| + 1] == stopped;
    if replaced.Err? {
      StopFailedRun(identified, drained, confirmed, expected);
      UnconfirmedJustified(identified, confirmed, ticking, world.clock, replaced.error, oldPid, oldSignature, expected);
      return Err(replaced.error);
    }
    ghost var w :| |stopped| <= w < |confirmed| - 1 && Departed(confirmed[w], oldPid, oldSignature);
    ReplacementFound(identified, drained, confirmed, oldPid, oldSignature, w, expected);
    WentPastStop(identified, drained, confirmed, confirmed);
    r := Reconcile(world, live);
    WentPastStop(identified, drained, confirmed, world.trace);
    RespawnsAfter(confirmed, world.trace, 1, |drained|, w, expected);
    if r.Ok? {
      ReplacedRun(drained, confirmed, world.trace, p, live);
      ReplacedAccount(drained, confirmed, world.trace, p, live);
    } else {
      NobodyRespawned(world.trace);
      FailureJustified(world.trace, world.trace, world.clock, r.error, expected);
    }
  }

  /** After a confirmed replacement the attempted generations are the parked ones. */
  lemma ReplacedRun(drained: Trace, confirmed: Trace, trace: Trace, p: nat, live: seq<Generation>)
    requires drained < confirmed <= trace && p < |drained| && drained[p].reply.Answer?
    requires Observing(confirmed[..|drained| + 1], confirmed)
    requires live == Select(Generations(drained[p].reply.liveAgents), drained, p + 1, |drained|, LIVE_STATES)
    requires Attempted(trace) == Select(live, trace, |confirmed|, |trace|, ORPHANED_STATES)
    ensures trace[p] == drained[p] && trace[|drained|] == confirmed[|drained|]
    ensures Attempted(trace) == Parked(trace, p, |drained|)
  {
    hide Select, Attempted, Generations, Parked, Observing;
    assert trace[p] == confirmed[p] == drained[p];
    SelectAgrees(Generations(drained[p].reply.liveAgents), drained, trace, p + 1, |drained|, LIVE_STATES);
    NobodyListed(|drained| + 1, confirmed, trace);
    ParkedFrom(trace, p, |drained|, |confirmed|, live);
  }

  lemma NobodyRespawned(trace: Trace)
    requires NoRespawn(trace)
    ensures RespawnsOnlyOrphans(trace)
  {
  }

  /** Who is respawned, in the rows of the replies. */
  lemma ReplacedAccount(drained: Trace, confirmed: Trace, trace: Trace, p: nat, live: seq<Generation>)
    requires drained < confirmed <= trace && p < |drained| && drained[p].reply.Answer?
    requires confirmed[|drained|].call == Stop && confirmed[|drained|].reply.Answer?
    requires Observing(confirmed[..|drained| + 1], confirmed) && NoRespawn(confirmed)
    requires live == Select(Generations(drained[p].reply.liveAgents), drained, p + 1, |drained|, LIVE_STATES)
    requires forall i :: p <= i < |drained| ==> drained[i].reply.Answer?
    requires Attempted(trace) == Select(live, trace, |confirmed|, |trace|, ORPHANED_STATES)
    requires ListedOnce(confirmed, trace, live)
    ensures RespawnsExactly(trace, p, |drained|) && RespawnsOnlyOrphans(trace)
  {
    hide Select, Attempted, Generations, IsLive, IsOrphaned, WasLive, SpawnsIn, ListedIn;
    var s, n := |drained|, |confirmed|;
    SelectAgrees(Generations(drained[p].reply.liveAgents), drained, trace, p + 1, s, LIVE_STATES);
    NobodyListed(s + 1, confirmed, trace);
    assert forall i :: 0 <= i < n ==> trace[i] == confirmed[i];
    assert forall i :: 0 <= i < s ==> trace[i] == drained[i];
    forall g: Generation
      ensures (exists j :: 0 <= j < |trace| && trace[j].call == Respawn(g)) <==>
                && g in live
                && exists i :: s < i < |trace| && trace[i].call == ListAgents && IsOrphaned(trace[i].reply, g.spawn)
      ensures g in live <==>
                && WasLive(trace[p].reply, g)
                && forall i :: p < i < s && trace[i].call == ListAgents ==> IsLive(trace[i].reply, g.spawn)
    {
      AttemptedMembers(trace, g);
      DrainedMeans(trace, p, s, g);
      OrphansMean(confirmed, trace, live, g);
    }
    forall j | 0 <= j < |trace| && trace[j].call.Respawn?
      ensures n < j && IsOrphaned(trace[n].reply, trace[j].call.generation.spawn) && trace[n].call == ListAgents
    {
      var g := trace[j].call.generation;
      assert trace[j].call == Respawn(g);
      assert g in live;
    }
  }

  /** After the confirmation one list decides who is orphaned. */
  lemma OrphansMean(confirmed: Trace, trace: Trace, live: seq<Generation>, g: Generation)
    requires ListedOnce(confirmed, trace, live)
    ensures g in Select(live, trace, |confirmed|, |trace|, ORPHANED_STATES) <==>
              g in live && trace[|confirmed|].call == ListAgents && IsOrphaned(trace[|confirmed|].reply, g.spawn)
  {
    hide Select, SpawnsIn, IsOrphaned;
    SelectMembers(live, trace, |confirmed|, |trace|, ORPHANED_STATES);
    if live != [] {
      SpawnsMean(trace[|confirmed|].reply, g.spawn);
    }
  }

  /** Every error a run ends with is about something that happened in it. */
  ghost predicate Justified(trace: Trace, clock: seq<bool>, error: Error, expected: string) {
    && trace != []
    && var last := trace[|trace| - 1];
       if error == NotRunning then |trace| == 1 && last.call == Connect && last.reply.Failed?
       else if error.CallFailed? then Exchange(error.call, Failed(error.error)) in trace
       else if error == OldInstanceStillAlive then TimeUp([], clock) && StillThere(trace)
       else |trace| > 2 && trace[1].call == Status && trace[1].reply.Answer?
            && last.call == Status && last.reply.Answer? && !Succeeds(last, trace[1].reply.pid, expected)
  }

  /** The last answer is that of the old process: its start time is what it was,
      or its socket still accepts. */
  ghost predicate StillThere(trace: Trace)
    requires trace != []
  {
    var last := trace[|trace| - 1];
    || (last.call == Connect && last.reply.Answer?)
    || (last.call.Probe? && last.reply.Answer? &&
        exists b :: 0 <= b < |trace| - 1 && trace[b].call == last.call && trace[b].reply.Answer?
                    && trace[b].reply.signature == last.reply.signature)
  }

  lemma FailureJustified(a: Trace, trace: Trace, clock: seq<bool>, error: Error, expected: string)
    requires EndsInFailure(a, error) && a <= trace
    ensures Justified(trace, clock, error, expected)
  {
    assert trace[|a| - 1] == a[|a| - 1];
  }

  lemma NotIdentified(trace: Trace, clock: seq<bool>, error: Error, expected: string)
    requires if error == NotRunning then |trace| == 1 && trace[0].call == Connect && trace[0].reply.Failed?
             else EndsInFailure(trace, error)
    ensures Justified(trace, clock, error, expected)
  {
    if error != NotRunning {
      FailureJustified(trace, trace, clock, error, expected);
    }
  }

  lemma StopJustified(trace: Trace, clock: seq<bool>, error: string, expected: string)
    requires trace != [] && trace[|trace| - 1] == Exchange(Stop, Failed(error))
    ensures Justified(trace, clock, CallFailed(Stop, error), expected)
  {
  }

  lemma UnconfirmedJustified(identified: Trace, trace: Trace, before: seq<bool>, clock: seq<bool>, error: Error,
                             oldPid: Option<nat>, oldSignature: Option<string>, expected: string)
    requires identified < trace && Unconfirmed(trace, before, clock, error, oldPid, oldSignature, expected)
    requires Identified(identified, oldPid, oldSignature)
    ensures Justified(trace, clock, error, expected)
  {
    assert trace[1] == identified[1];
    if error.CallFailed? {
      FailureJustified(trace, trace, clock, error, expected);
    } else if oldSignature.Some? {
      assert trace[2] == identified[2];
    }
  }

  lemma RespawnsAfter(confirmed: Trace, trace: Trace, o: nat, s: nat, w: nat, expected: string)
    requires confirmed <= trace && confirmed != [] && Replacement(confirmed, o, s, w, |confirmed| - 1, expected)
    requires forall i :: 0 <= i < |trace| && trace[i].call.Respawn? ==> |confirmed| <= i
    ensures RespawnsOnlyReplaced(trace, expected)
  {
    ReplacementStays(confirmed, trace, o, s, w, |confirmed| - 1, expected);
  }

  /** The confirmation lists nobody, so the drained list carries over it. */
  lemma ParkedFrom(trace: Trace, p: nat, s: nat, m: nat, live: seq<Generation>)
    requires p < s < m <= |trace| && trace[p].reply.Answer?
    requires live == Select(Generations(trace[p].reply.liveAgents), trace, p + 1, s, LIVE_STATES)
    requires forall i :: s < i < m ==> trace[i].call != ListAgents
    requires Attempted(trace) == Select(live, trace, m, |trace|, ORPHANED_STATES)
    ensures Attempted(trace) == Parked(trace, p, s)
  {
    hide Attempted, Generations, Select, SpawnsIn;
    SelectSkips(live, trace, s + 1, m, |trace|, ORPHANED_STATES);
  }

  lemma NobodyListed(from: nat, confirmed: Trace, trace: Trace)
    requires from <= |confirmed| && Observing(confirmed[..from], confirmed) && confirmed <= trace
    ensures forall i :: from <= i < |confirmed| ==> trace[i].call != ListAgents
  {
    forall i | from <= i < |confirmed|
      ensures trace[i].call != ListAgents
    {
      assert Observes(confirmed[i].call);
    }
  }

  lemma {:induction false} SelectSkips(live: seq<Generation>, trace: Trace, lo: nat, mid: nat, hi: nat,
      states: set<string>)
    requires lo <= mid <= hi <= |trace| && forall i :: lo <= i < mid ==> trace[i].call != ListAgents
    ensures Select(live, trace, lo, hi, states) == Select(live, trace, mid, hi, states)
  {
    if live != [] {
      SelectSkips(live[1..], trace, lo, mid, hi, states);
    }
  }

  function Names(generations: seq<Generation>): multiset<string> {
    multiset(seq(|generations|, i requires 0 <= i < |generations| => generations[i].name))
  }

  function FailedNames(failed: seq<(string, string)>): multiset<string> {
    multiset(seq(|failed|, i requires 0 <= i < |failed| => failed[i].0))
  }

  lemma NamesSnoc(generations: seq<Generation>, g: Generation)
    ensures Names(generations + [g]) == Names(generations) + multiset{g.name}
  {
    var more := generations + [g];
    assert seq(|more|, i requires 0 <= i < |more| => more[i].name)
        == seq(|generations|, i requires 0 <= i < |generations| => generations[i].name) + [g.name];
  }

  lemma FailedNamesSnoc(failed: seq<(string, string)>, f: (string, string))
    ensures FailedNames(failed + [f]) == FailedNames(failed) + multiset{f.0}
  {
    var more := failed + [f];
    assert seq(|more|, i requires 0 <= i < |more| => more[i].0)
        == seq(|failed|, i requires 0 <= i < |failed| => failed[i].0) + [f.0];
  }

  /** Every attempt is reported once, as respawned or as failed. */
  lemma {:induction false} ReportCoversAttempts(trace: Trace)
    ensures multiset(ReportOf(trace).respawned) + FailedNames(ReportOf(trace).failed) == Names(Attempted(trace))
  {
    if trace != [] {
      var n := |trace| - 1;
      ReportCoversAttempts(trace[..n]);
      var last := trace[n];
      var before := ReportOf(trace[..n]);
      if !last.call.Respawn? {
        assert Attempted(trace) == Attempted(trace[..n]);
      } else {
        assert multiset(before.respawned + [last.call.generation.name]) ==
               multiset(before.respawned) + multiset{last.call.generation.name};
        NamesSnoc(Attempted(trace[..n]), last.call.generation);
        if last.reply.Failed? {
          FailedNamesSnoc(before.failed, (last.call.generation.name, last.reply.error));
        }
      }
    }
  }

  /** What the report says: a name is respawned when some respawn of it was answered,
      and failed with an error when some respawn of it failed with that error. */
  lemma {:induction false} ReportMeans(trace: Trace, name: string, error: string)
    ensures name in ReportOf(trace).respawned <==>
              exists i :: && 0 <= i < |trace| && trace[i].call.Respawn? && trace[i].call.generation.name == name
                          && trace[i].reply.Answer?
    ensures (name, error) in ReportOf(trace).failed <==>
              exists i :: && 0 <= i < |trace| && trace[i].call.Respawn? && trace[i].call.generation.name == name
                          && trace[i].reply == Failed(error)
  {
    if trace != [] {
      var n := |trace| - 1;
      ReportMeans(trace[..n], name, error);
      assert forall i :: 0 <= i < n ==> trace[..n][i] == trace[i];
    }
  }
}
