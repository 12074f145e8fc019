/** The plan and the in-place apply of `migrate-landing-names.py`.  A file
    system is a map from paths to entries, so no two paths name one file. */
module NameMigration {
  import opened Basics
  import opened Renaming

  datatype Path = Path(dir: string, name: string)

  /** `Link` is a symbolic link to a readable file, `Dangling` one to nothing. */
  datatype Entry = File(text: string, mode: nat) | Link(text: string, mode: nat) | Dangling | Directory

  type Files = map<Path, Entry>

  datatype Change = Change(source: Path, target: Path, original: string, updated: string)

  datatype PlanError = ConflictingDestination(target: Path) | SymbolicLink(path: Path)

  datatype ApplyError = SourceChanged(source: Path) | TemporaryExists(temporary: Path) | TargetIsDirectory(target: Path)

  datatype MigrateError = PlanRefused(plan: PlanError) | Stopped(apply: ApplyError)

  /** What is done to the disk: a backup written, a planned file replaced. */
  datatype Action = Saved(source: Path, original: string) | Replaced(source: Path, target: Path)

  predicate IsFile(files: Files, p: Path) {
    p in files && (files[p].File? || files[p].Link?)
  }

  /** `Path.exists` follows links, so a dangling one does not exist. */
  predicate Exists(files: Files, p: Path) {
    p in files && !files[p].Dangling?
  }

  function TargetOf(p: Path): Path {
    Path(p.dir, Renamed(p.name))
  }

  function TemporaryOf(target: Path): Path {
    Path(target.dir, target.name + ".rename.tmp")
  }

  // ----- which files are looked at ------------------------------------------

  predicate EndsWith(name: string, suffix: string) {
    |suffix| <= |name| && name[|name| - |suffix|..] == suffix
  }

  function Roots(home: string, repos: seq<string>): set<string> {
    {home} + set r | r in repos :: r + "/.rk"
  }

  /** `home/config.toml`, and the `.cue` files of every root and of its workflow,
      trigger and schedule directories. */
  predicate IsCandidate(home: string, repos: seq<string>, p: Path) {
    || p == Path(home, "config.toml")
    || (&& EndsWith(p.name, ".cue")
        && exists root :: root in Roots(home, repos) &&
             p.dir in {root, root + "/workflows", root + "/triggers", root + "/schedules"})
  }

  predicate Distinct(paths: seq<Path>) {
    forall i, j :: 0 <= i < j < |paths| ==> paths[i] != paths[j]
  }

  /** `paths` lists the candidates present, and `config.toml` in any case, once
      each and in any order. */
  predicate Lists(files: Files, home: string, repos: seq<string>, paths: seq<Path>) {
    && Distinct(paths)
    && (forall p :: p in paths ==> IsCandidate(home, repos, p))
    && (forall p :: p in files && IsCandidate(home, repos, p) ==> p in paths)
  }

  // ----- the plan ---------------------------------------------------------------

  predicate NeedsChange(files: Files, p: Path) {
    IsFile(files, p) && (Renamed(files[p].text) != files[p].text || TargetOf(p) != p)
  }

  function ChangeOf(files: Files, p: Path): Change
    requires IsFile(files, p)
  {
    Change(p, TargetOf(p), files[p].text, Renamed(files[p].text))
  }

  /** The changes for all paths that need one, in order. */
  function Pending(files: Files, paths: seq<Path>): seq<Change> {
    if paths == [] then []
    else
      var last := paths[|paths| - 1];
      Pending(files, paths[..|paths| - 1]) + if NeedsChange(files, last) then [ChangeOf(files, last)] else []
  }

  /** The `i`th change overwrites nothing, replaces no link and shares its target
      with no earlier change. */
  predicate Admissible(files: Files, changes: seq<Change>, i: nat)
    requires i < |changes|
  {
    && (changes[i].target == changes[i].source || !Exists(files, changes[i].target))
    && !(changes[i].source in files && files[changes[i].source].Link?)
    && forall j :: 0 <= j < i ==> changes[j].target != changes[i].target
  }

  predicate Acceptable(files: Files, changes: seq<Change>) {
    forall i :: 0 <= i < |changes| ==> Admissible(files, changes, i)
  }

  lemma {:induction false} PendingPrefix(files: Files, paths: seq<Path>, k: nat)
    requires k <= |paths|
    ensures Pending(files, paths[..k]) <= Pending(files, paths)
    decreases |paths|
  {
    if k == |paths| {
      assert paths[..k] == paths;
    } else {
      PendingPrefix(files, paths[..|paths| - 1], k);
      assert paths[..|paths| - 1][..k] == paths[..k];
    }
  }

  /** The target is taken, by an earlier change or by a file. */
  predicate Taken(files: Files, changes: seq<Change>, i: nat)
    requires i < |changes|
  {
    || (exists j :: 0 <= j < i && changes[j].target == changes[i].target)
    || (changes[i].target != changes[i].source && Exists(files, changes[i].target))
  }

  /** The error is about the first change that cannot be made. */
  predicate Explains(files: Files, changes: seq<Change>, i: nat, e: PlanError) {
    && i < |changes| && (forall k :: 0 <= k < i ==> Admissible(files, changes, k)) && !Admissible(files, changes, i)
    && if Taken(files, changes, i) then e == ConflictingDestination(changes[i].target)
       else e == SymbolicLink(changes[i].source)
  }

  /** What cannot be done after the first paths stays so. */
  lemma StaysInadmissible(files: Files, paths: seq<Path>, k: nat, i: nat, e: PlanError)
    requires k <= |paths| && Explains(files, Pending(files, paths[..k]), i, e)
    ensures !Acceptable(files, Pending(files, paths)) && Explains(files, Pending(files, paths), i, e)
  {
    PendingPrefix(files, paths, k);
    var some, all := Pending(files, paths[..k]), Pending(files, paths);
    forall j | 0 <= j < |some|
      ensures some[j] == all[j] && (Admissible(files, some, j) <==> Admissible(files, all, j))
      ensures Taken(files, some, j) <==> Taken(files, all, j)
    {
      assert forall m :: 0 <= m <= j ==> some[m] == all[m];
    }
  }

  lemma FirstObstacle(files: Files, changes: seq<Change>, c: Change, e: PlanError)
    requires Acceptable(files, changes) && !Admissible(files, changes + [c], |changes|)
    requires if Taken(files, changes + [c], |changes|) then e == ConflictingDestination(c.target)
             else e == SymbolicLink(c.source)
    ensures Explains(files, changes + [c], |changes|, e)
  {
    forall i | 0 <= i < |changes|
      ensures Admissible(files, changes + [c], i)
    {
      assert Admissible(files, changes, i);
    }
  }

  lemma PendingOneMore(files: Files, paths: seq<Path>, i: nat)
    requires i < |paths|
    ensures Pending(files, paths[..i + 1]) ==
            Pending(files, paths[..i]) + if NeedsChange(files, paths[i]) then [ChangeOf(files, paths[i])] else []
  {
    assert paths[..i + 1][..i] == paths[..i];
  }

  function Targets(changes: seq<Change>): set<Path> {
    set c | c in changes :: c.target
  }

  lemma TargetsOneMore(changes: seq<Change>, c: Change)
    ensures Targets(changes + [c]) == Targets(changes) + {c.target}
  {
    assert forall d :: d in changes + [c] <==> d in changes || d == c;
    assert c in changes + [c];
  }

  lemma SharedTarget(files: Files, changes: seq<Change>, c: Change)
    requires c.target in Targets(changes) || (c.target != c.source && Exists(files, c.target))
    ensures !Admissible(files, changes + [c], |changes|) && Taken(files, changes + [c], |changes|)
  {
    if c.target in Targets(changes) {
      var d :| d in changes && d.target == c.target;
      var j :| 0 <= j < |changes| && changes[j] == d;
      assert (changes + [c])[j].target == (changes + [c])[|changes|].target;
    }
  }

  lemma NotTaken(files: Files, changes: seq<Change>, c: Change)
    requires c.target !in Targets(changes) && (c.target == c.source || !Exists(files, c.target))
    ensures !Taken(files, changes + [c], |changes|)
  {
    forall j | 0 <= j < |changes|
      ensures (changes + [c])[j].target != c.target
    {
      assert changes[j] in changes;
    }
  }

  lemma AcceptableOneMore(files: Files, changes: seq<Change>, c: Change)
    requires Acceptable(files, changes) && Admissible(files, changes + [c], |changes|)
    ensures Acceptable(files, changes + [c])
  {
    forall i | 0 <= i <= |changes|
      ensures Admissible(files, changes + [c], i)
    {
      if i < |changes| {
        assert Admissible(files, changes, i);
      }
    }
  }

  /** `plan` over the sorted candidates: it succeeds exactly when no change is in
      the way of another or of an existing file, and then plans every file. */
  method Plan(files: Files, paths: seq<Path>) returns (r: Result<seq<Change>, PlanError>)
    ensures r.Ok? <==> Acceptable(files, Pending(files, paths))
    ensures r.Ok? ==> r.value == Pending(files, paths)
    ensures r.Err? ==> exists i: nat :: Explains(files, Pending(files, paths), i, r.error)
  {
    hide Renamed;
    var changes := [];
    var destinations := {};
    for i := 0 to |paths|
      invariant changes == Pending(files, paths[..i])
      invariant destinations == Targets(changes)
      invariant Acceptable(files, changes)
    {
      PendingOneMore(files, paths, i);
      var path := paths[i];
      if !IsFile(files, path) {
        continue;
      }
      var original := files[path].text;
      var updated := Rename(original);
      var name := Rename(path.name);
      var target := Path(path.dir, name);
      if updated == original && target == path {
        continue;
      }
      var change := Change(path, target, original, updated);
      assert Pending(files, paths[..i + 1]) == changes + [change];
      if target in destinations || (target != path && Exists(files, target)) {
        SharedTarget(files, changes, change);
        FirstObstacle(files, changes, change, ConflictingDestination(target));
        StaysInadmissible(files, paths, i + 1, |changes|, ConflictingDestination(target));
        return Err(ConflictingDestination(target));
      }
      if files[path].Link? {
        NotTaken(files, changes, change);
        FirstObstacle(files, changes, change, SymbolicLink(path));
        StaysInadmissible(files, paths, i + 1, |changes|, SymbolicLink(path));
        return Err(SymbolicLink(path));
      }
      AcceptableOneMore(files, changes, change);
      TargetsOneMore(changes, change);
      destinations := destinations + {target};
      changes := changes + [change];
    }
    assert paths[..|paths|] == paths;
    return Ok(changes);
  }

  // ----- what a plan guarantees ---------------------------------------------------

  lemma {:induction false} PendingMembers(files: Files, paths: seq<Path>)
    ensures forall i :: 0 <= i < |Pending(files, paths)| ==>
              var c := Pending(files, paths)[i];
              c.source in paths && NeedsChange(files, c.source) && c == ChangeOf(files, c.source)
    ensures forall p :: p in paths && NeedsChange(files, p) ==> ChangeOf(files, p) in Pending(files, paths)
  {
    if paths != [] {
      var n := |paths| - 1;
      PendingMembers(files, paths[..n]);
      assert paths == paths[..n] + [paths[n]];
    }
  }

  lemma {:induction false} PendingDistinct(files: Files, paths: seq<Path>)
    requires Distinct(paths)
    ensures forall i, j :: 0 <= i < j < |Pending(files, paths)| ==>
              Pending(files, paths)[i].source != Pending(files, paths)[j].source
  {
    if paths != [] {
      var n := |paths| - 1;
      PendingDistinct(files, paths[..n]);
      PendingMembers(files, paths[..n]);
      assert paths[n] !in paths[..n];
    }
  }

  /** The facts about a plan that its application relies on. */
  ghost predicate Sane(files: Files, changes: seq<Change>) {
    && (forall i :: 0 <= i < |changes| ==>
          && changes[i].source in files && files[changes[i].source].File?
          && files[changes[i].source].text == changes[i].original)
    && (forall i, j :: 0 <= i < j < |changes| ==>
          changes[i].source != changes[j].source && changes[i].target != changes[j].target)
    && (forall i, j :: 0 <= i < |changes| && 0 <= j < |changes| && i != j ==> changes[i].target != changes[j].source)
    && (forall i :: 0 <= i < |changes| ==> changes[i].target == changes[i].source || !Exists(files, changes[i].target))
  }

  lemma PlanIsSane(files: Files, paths: seq<Path>)
    requires Distinct(paths) && Acceptable(files, Pending(files, paths))
    ensures Sane(files, Pending(files, paths))
  {
    hide Renamed;
    var changes := Pending(files, paths);
    PendingMembers(files, paths);
    PendingDistinct(files, paths);
    forall i, j | 0 <= i < |changes| && 0 <= j < |changes| && i != j
      ensures changes[i].target != changes[j].source && changes[i].target != changes[j].target
    {
      assert Admissible(files, changes, i) && Admissible(files, changes, j);
      assert Exists(files, changes[j].source);
    }
    forall i | 0 <= i < |changes|
      ensures files[changes[i].source].File?
      ensures changes[i].target == changes[i].source || !Exists(files, changes[i].target)
    {
      assert Admissible(files, changes, i);
    }
  }

  /** No temporary name is looked at or planned: candidates and their targets end
      in `.cue` or are `config.toml`. */
  lemma TemporaryIsNoCandidate(home: string, repos: seq<string>, p: Path, target: Path)
    requires IsCandidate(home, repos, p)
    ensures p != TemporaryOf(target) && TargetOf(p) != TemporaryOf(target)
  {
    var temporary := TemporaryOf(target).name;
    assert temporary[|temporary| - 1] == 'p';
    if EndsWith(p.name, ".cue") {
      var stem := p.name[..|p.name| - 4];
      assert p.name == stem + "." + "cue";
      RenamedAcrossDot(stem, "cue");
      ShortTextKept("cue");
      assert Renamed(p.name)[|Renamed(p.name)| - 1] == 'e';
    } else {
      assert p.name == "config" + "." + "toml";
      RenamedAcrossDot("config", "toml");
      ShortTextKept("config");
      ShortTextKept("toml");
      assert Renamed(p.name)[|Renamed(p.name)| - 1] == 'l';
    }
  }

  // ----- applying a plan -------------------------------------------------------------

  function ModeOf(files: Files, p: Path): nat {
    if IsFile(files, p) then files[p].mode else 0
  }

  /** `after` is `files` with all planned files renamed at the same time. */
  ghost predicate RenamedAtOnce(files: Files, changes: seq<Change>, after: Files)
  {
    && (forall c :: c in changes ==> c.target in after && after[c.target] == File(c.updated, ModeOf(files, c.source)))
    && (forall p :: p !in Targets(changes) ==>
          && (p in after <==> p in files && p !in Sources(changes))
          && (p in after ==> after[p] == files[p]))
  }

  function Sources(changes: seq<Change>): set<Path> {
    set c | c in changes :: c.source
  }

  lemma SourcesOneMore(changes: seq<Change>, c: Change)
    ensures Sources(changes + [c]) == Sources(changes) + {c.source}
  {
    assert forall d :: d in changes + [c] <==> d in changes || d == c;
    assert c in changes + [c];
  }

  /** The temporary names are neither sources nor targets. */
  ghost predicate TemporariesApart(changes: seq<Change>) {
    forall c :: c in changes ==>
        TemporaryOf(c.target) !in Targets(changes) && TemporaryOf(c.target) !in Sources(changes)
  }

  /** A file already has the temporary name of this change. */
  predicate Blocked(files: Files, c: Change) {
    Path(c.target.dir, c.target.name + ".rename.tmp") in files
  }

  /** After `n` changes made at once: all of them, or stopped by the first one
      whose temporary name is taken. */
  ghost predicate StopsAt(files: Files, changes: seq<Change>, n: nat, after: Files, r: Result<(), ApplyError>) {
    && n <= |changes| && RenamedAtOnce(files, changes[..n], after)
    && (forall i :: 0 <= i < n ==> !Blocked(files, changes[i]))
    && if n == |changes| then r.Ok?
       else Blocked(files, changes[n]) && r == Err(TemporaryExists(TemporaryOf(changes[n].target)))
  }

  function Saves(changes: seq<Change>): seq<Action> {
    if changes == [] then []
    else
      var last := changes[|changes| - 1];
      Saves(changes[..|changes| - 1]) + [Saved(last.source, last.original)]
  }

  function Moves(changes: seq<Change>): seq<Action> {
    if changes == [] then []
    else
      var last := changes[|changes| - 1];
      Moves(changes[..|changes| - 1]) + [Replaced(last.source, last.target)]
  }

  lemma OneMoreAction(changes: seq<Change>, k: nat)
    requires k < |changes|
    ensures Saves(changes[..k + 1]) == Saves(changes[..k]) + [Saved(changes[k].source, changes[k].original)]
    ensures Moves(changes[..k + 1]) == Moves(changes[..k]) + [Replaced(changes[k].source, changes[k].target)]
  {
    assert changes[..k + 1][..k] == changes[..k];
  }

  /** Before its turn a planned source is still as it was planned. */
  lemma SourceUntouched(files: Files, changes: seq<Change>, k: nat, now: Files)
    requires Sane(files, changes) && k < |changes|
    requires RenamedAtOnce(files, changes[..k], now)
    ensures var p := changes[k].source;
            p in now && p in files && now[p] == files[p] && files[p].File? && files[p].text == changes[k].original
  {
    EarlierChangesApart(files, changes, k);
  }

  lemma EarlierChangesApart(files: Files, changes: seq<Change>, k: nat)
    requires Sane(files, changes) && k < |changes|
    ensures forall c :: c in changes[..k] ==>
              && c.target != changes[k].source && c.source != changes[k].source
              && c.target != changes[k].target && c.source != changes[k].target
  {
    forall c | c in changes[..k]
      ensures c.target != changes[k].source && c.source != changes[k].source
      ensures c.target != changes[k].target && c.source != changes[k].target
    {
      var i :| 0 <= i < k && changes[i] == c;
    }
  }

  lemma SourcesDistinct(files: Files, changes: seq<Change>)
    requires Sane(files, changes)
    ensures forall i, j :: 0 <= i < j < |changes| ==> changes[i].source != changes[j].source
  {
  }

  lemma NothingRenamed(files: Files)
    ensures RenamedAtOnce(files, [], files)
  {
  }

  /** What moving one file in place does. */
  function Moved(now: Files, c: Change, mode: nat): Files {
    var written := now[c.target := File(c.updated, mode)];
    if c.source == c.target then written else written - {c.source}
  }

  /** One more file moved in place is one more file in the renaming at once. */
  lemma StepIsSimultaneous(files: Files, done: seq<Change>, c: Change, now: Files)
    requires RenamedAtOnce(files, done, now)
    requires forall d :: d in done ==> d.target != c.target && d.target != c.source
    ensures RenamedAtOnce(files, done + [c], Moved(now, c, ModeOf(files, c.source)))
  {
    TargetsOneMore(done, c);
    SourcesOneMore(done, c);
    var after := Moved(now, c, ModeOf(files, c.source));
    assert c.target in after && after[c.target] == File(c.updated, ModeOf(files, c.source));
  }

  /** An installation whose files are rewritten in place. */
  class Installation {
    var files: Files
    var backups: map<Path, string>
    ghost var actions: seq<Action>

    constructor (files: Files)
      ensures this.files == files && backups == map[] && actions == []
    {
      this.files := files;
      backups, actions := map[], [];
    }

    /** Save every original before any installed file changes. */
    method BackUp(changes: seq<Change>)
      modifies this`backups, this`actions
      ensures actions == old(actions) + Saves(changes)
      ensures (forall i, j :: 0 <= i < j < |changes| ==> changes[i].source != changes[j].source) ==>
                forall c :: c in changes ==> c.source in backups && backups[c.source] == c.original
    {
      for k := 0 to |changes|
        invariant actions == old(actions) + Saves(changes[..k])
        invariant (forall i, j :: 0 <= i < j < |changes| ==> changes[i].source != changes[j].source) ==>
                    forall i :: 0 <= i < k ==>
                      changes[i].source in backups && backups[changes[i].source] == changes[i].original
      {
        OneMoreAction(changes, k);
        backups := backups[changes[k].source := changes[k].original];
        actions := actions + [Saved(changes[k].source, changes[k].original)];
      }
      assert changes[..|changes|] == changes;
    }

    /** One planned file: write the new text beside the target, replace the
        target, drop the source.  A directory at the target stops it with the
        temporary file written. */
    method ApplyOne(c: Change) returns (r: Result<(), ApplyError>)
      modifies this`files, this`actions
      ensures var before := old(files);
              var mode := ModeOf(before, c.source);
              if !(IsFile(before, c.source) && before[c.source].text == c.original) then
                r == Err(SourceChanged(c.source)) && files == before
              else if Blocked(before, c) then
                r == Err(TemporaryExists(TemporaryOf(c.target))) && files == before
              else if c.target in before && before[c.target].Directory? then
                r == Err(TargetIsDirectory(c.target)) && files == before[TemporaryOf(c.target) := File(c.updated, mode)]
              else r.Ok? && files == Moved(before, c, mode)
      ensures actions == old(actions) + if r.Ok? then [Replaced(c.source, c.target)] else []
    {
      if !IsFile(files, c.source) || files[c.source].text != c.original {
        return Err(SourceChanged(c.source));
      }
      var temporary := TemporaryOf(c.target);
      if temporary in files {
        return Err(TemporaryExists(temporary));
      }
      assert temporary != c.target;
      files := files[temporary := File(c.updated, 0)];
      files := files[temporary := File(files[temporary].text, files[c.source].mode)];
      if c.target in files && files[c.target].Directory? {
        return Err(TargetIsDirectory(c.target));
      }
      files := files[c.target := files[temporary]] - {temporary};
      if c.source != c.target {
        files := files - {c.source};
      }
      actions := actions + [Replaced(c.source, c.target)];
      return Ok(());
    }

    /** The apply loop: every backup is written before the first file is replaced.
        On a plan made for these files it never finds a source changed or a
        directory in the way; only a temporary name already taken stops it, and
        what it has done by then is the renaming of the files before at once. */
    method Apply(changes: seq<Change>) returns (r: Result<(), ApplyError>)
      modifies this
      ensures exists n: nat ::
                && n <= |changes| && (r.Ok? <==> n == |changes|)
                && actions == old(actions) + Saves(changes) + Moves(changes[..n])
                && (Sane(old(files), changes) && TemporariesApart(changes) ==>
                   StopsAt(old(files), changes, n, files, r))
      ensures Sane(old(files), changes) ==>
                forall c :: c in changes ==> c.source in backups && backups[c.source] == c.original
    {
      hide Sane, RenamedAtOnce, TemporariesApart, Moved, Saves, Moves;
      BackUp(changes);
      ghost var start, saved, done := files, backups, actions;
      if Sane(start, changes) {
        SourcesDistinct(start, changes);
      }
      NothingRenamed(start);
      ghost var planned := Sane(start, changes) && TemporariesApart(changes);
      NothingMoved(changes[..0]);
      for k := 0 to |changes|
        invariant backups == saved && actions == done + Moves(changes[..k])
        invariant changes[..0] == []
        invariant planned ==> RenamedAtOnce(start, changes[..k], files)
        invariant planned ==> forall i :: 0 <= i < k ==> !Blocked(start, changes[i])
      {
        if planned {
          TurnIsReady(start, changes, k, files);
        }
        OneMoreAction(changes, k);
        var outcome := ApplyOne(changes[k]);
        if outcome.Err? {
          assert planned ==> StopsAt(start, changes, k, files, outcome);
          return outcome;
        }
      }
      assert changes[..|changes|] == changes;
      r := Ok(());
      assert planned ==> StopsAt(start, changes, |changes|, files, r);
    }
  }

  lemma NothingMoved(changes: seq<Change>)
    requires changes == []
    ensures Moves(changes) == []
  {
  }

  /** When its turn comes, a planned change finds its source unchanged, no
      directory at its target, and its temporary name as free as at the start, and
      moving it extends the renaming at once. */
  lemma TurnIsReady(files: Files, changes: seq<Change>, k: nat, now: Files)
    requires Sane(files, changes) && TemporariesApart(changes) && k < |changes|
    requires RenamedAtOnce(files, changes[..k], now)
    ensures var c := changes[k];
            && IsFile(now, c.source) && now[c.source].text == c.original
            && (Blocked(now, c) <==> Blocked(files, c))
            && (c.target in now ==> !now[c.target].Directory?)
            && RenamedAtOnce(files, changes[..k + 1], Moved(now, c, ModeOf(now, c.source)))
  {
    hide Sane, RenamedAtOnce, TemporariesApart, Moved;
    SourceUntouched(files, changes, k, now);
    EarlierChangesApart(files, changes, k);
    StepIsSimultaneous(files, changes[..k], changes[k], now);
    TemporaryUntouched(files, changes, k, now);
    NoDirectoryThere(files, changes, k, now);
    assert changes[..k + 1] == changes[..k] + [changes[k]];
  }

  lemma TemporaryUntouched(files: Files, changes: seq<Change>, k: nat, now: Files)
    requires k < |changes| && TemporariesApart(changes)
    requires RenamedAtOnce(files, changes[..k], now)
    ensures Blocked(now, changes[k]) <==> Blocked(files, changes[k])
  {
    assert forall c :: c in changes[..k] ==> c in changes;
    var temporary := TemporaryOf(changes[k].target);
    assert changes[k] in changes;
    assert temporary !in Targets(changes[..k]) && temporary !in Sources(changes[..k]);
  }

  lemma NoDirectoryThere(files: Files, changes: seq<Change>, k: nat, now: Files)
    requires Sane(files, changes) && k < |changes| && RenamedAtOnce(files, changes[..k], now)
    ensures changes[k].target in now ==> !now[changes[k].target].Directory?
  {
    EarlierChangesApart(files, changes, k);
    assert changes[k].target !in Targets(changes[..k]);
  }

  // ----- the whole migration ------------------------------------------------------------

  lemma PlanTemporaries(files: Files, home: string, repos: seq<string>, paths: seq<Path>)
    requires Lists(files, home, repos, paths)
    ensures TemporariesApart(Pending(files, paths))
  {
    hide Renamed;
    var changes := Pending(files, paths);
    PendingMembers(files, paths);
    forall c, d | c in changes && d in changes
      ensures d.target != TemporaryOf(c.target) && d.source != TemporaryOf(c.target)
    {
      TemporaryIsNoCandidate(home, repos, d.source, c.target);
    }
  }

  lemma PendingSource(files: Files, paths: seq<Path>, p: Path)
    requires p in paths
    ensures NeedsChange(files, p) ==> p in Sources(Pending(files, paths))
  {
    PendingMembers(files, paths);
    if NeedsChange(files, p) {
      assert ChangeOf(files, p) in Pending(files, paths);
    }
  }

  /** Nothing is lost and nothing else is touched: a path that is neither source
      nor target is as before; a target was a planned source itself, absent, or a
      dangling link. */
  lemma NothingElseTouched(files: Files, paths: seq<Path>, after: Files, p: Path)
    requires Distinct(paths) && Acceptable(files, Pending(files, paths))
    requires RenamedAtOnce(files, Pending(files, paths), after)
    ensures p in files && p !in after ==>
              files[p].File? &&
              exists c :: c in Pending(files, paths) && c.source == p
                          && c.target in after && after[c.target] == File(Renamed(files[p].text), files[p].mode)
    ensures p in files && p in after && after[p] != files[p] ==>
              files[p].Dangling? || (files[p].File? && after[p] == File(Renamed(files[p].text), files[p].mode)
                  && TargetOf(p) == p)
  {
    hide Renamed, Pending;
    var changes := Pending(files, paths);
    PlanIsSane(files, paths);
    PendingMembers(files, paths);
    if p in files && p !in after {
      var c :| c in changes && c.source == p;
      assert c == ChangeOf(files, p);
    }
    if p in files && p in after && after[p] != files[p] {
      var c :| c in changes && c.target == p;
      assert c == ChangeOf(files, c.source);
      assert Exists(files, p) ==> c.source == p;
    }
  }

  // ----- what is planned, said of the files --------------------------------------------------

  /** Where the migration looks: `config.toml` of the home, and the `.cue` files of
      the home and of every repository's `.rk`, and of their workflow, trigger and
      schedule directories. */
  predicate Installed(home: string, repos: seq<string>, p: Path) {
    || (p.dir == home && p.name == "config.toml")
    || (&& |p.name| >= 4 && p.name[|p.name| - 4..] == ".cue"
        && (InRoot(home, p.dir) || exists repo :: repo in repos && InRoot(repo + "/.rk", p.dir)))
  }

  predicate InRoot(root: string, dir: string) {
    dir == root || dir == root + "/workflows" || dir == root + "/triggers" || dir == root + "/schedules"
  }

  lemma CandidatesMean(home: string, repos: seq<string>, p: Path)
    ensures IsCandidate(home, repos, p) <==> Installed(home, repos, p)
  {
    hide Roots;
    RootsMean(home, repos);
    if IsCandidate(home, repos, p) && p.name != "config.toml" {
      var root :| root in Roots(home, repos) && InRoot(root, p.dir);
      assert InRoot(root, p.dir);
    }
    if |p.name| >= 4 && p.name[|p.name| - 4..] == ".cue" {
      if InRoot(home, p.dir) {
        assert home in Roots(home, repos) && IsCandidate(home, repos, p);
      }
      if repo :| repo in repos && InRoot(repo + "/.rk", p.dir) {
        assert repo + "/.rk" in Roots(home, repos) && IsCandidate(home, repos, p);
      }
    }
  }

  lemma RootsMean(home: string, repos: seq<string>)
    ensures forall root :: root in Roots(home, repos) <==>
            root == home || exists repo :: repo in repos && repo + "/.rk" == root
  {
  }

  /** A readable file whose text or name has an old word. */
  predicate Outdated(files: Files, p: Path) {
    && p in files && (files[p].File? || files[p].Link?)
    && (Renamed(files[p].text) != files[p].text || Renamed(p.name) != p.name)
  }

  /** Nothing is in the way of renaming `p`: it is no link, its new name is its own
      or not that of anything but a dangling link, and no other outdated file gets
      the same. */
  ghost predicate MayRename(files: Files, paths: seq<Path>, p: Path) {
    && p in files && files[p].File?
    && (Renamed(p.name) == p.name || Path(p.dir, Renamed(p.name)) !in files
       || files[Path(p.dir, Renamed(p.name))].Dangling?)
    && forall q :: q in paths && q != p && Outdated(files, q) ==> q.dir != p.dir || Renamed(q.name) != Renamed(p.name)
  }

  lemma NeedsMeans(files: Files, p: Path)
    ensures NeedsChange(files, p) <==> Outdated(files, p)
    ensures TargetOf(p) == Path(p.dir, Renamed(p.name))
  {
    hide Renamed;
  }

  /** A plan is accepted exactly when nothing is in the way of any outdated file,
      and it is then about exactly the outdated files. */
  lemma AcceptedMeans(files: Files, paths: seq<Path>)
    requires Distinct(paths)
    ensures Acceptable(files, Pending(files, paths)) <==>
              forall p :: p in paths && Outdated(files, p) ==> MayRename(files, paths, p)
    ensures forall p :: p in Sources(Pending(files, paths)) <==> p in paths && Outdated(files, p)
  {
    hide Renamed, Pending, Outdated, NeedsChange, Acceptable, MayRename, Distinct;
    var changes := Pending(files, paths);
    PendingMembers(files, paths);
    forall p
      ensures NeedsChange(files, p) <==> Outdated(files, p)
    {
      NeedsMeans(files, p);
    }
    SourcesAre(files, paths);
    if Acceptable(files, changes) {
      forall p | p in paths && Outdated(files, p)
        ensures MayRename(files, paths, p)
      {
        AcceptedMayRename(files, paths, p);
      }
    }
    if forall p :: p in paths && Outdated(files, p) ==> MayRename(files, paths, p) {
      MayRenameAccepted(files, paths);
    }
  }

  lemma SourcesAre(files: Files, paths: seq<Path>)
    ensures forall p :: p in Sources(Pending(files, paths)) <==> p in paths && NeedsChange(files, p)
  {
    hide Renamed, Pending;
    PendingMembers(files, paths);
    forall p | p in paths && NeedsChange(files, p)
      ensures p in Sources(Pending(files, paths))
    {
      PendingSource(files, paths, p);
    }
  }

  lemma AcceptedMayRename(files: Files, paths: seq<Path>, p: Path)
    requires Distinct(paths) && Acceptable(files, Pending(files, paths)) && p in paths && Outdated(files, p)
    ensures MayRename(files, paths, p)
  {
    hide Renamed, Pending, Distinct;
    var changes := Pending(files, paths);
    PlanIsSane(files, paths);
    PendingMembers(files, paths);
    NeedsMeans(files, p);
    assert ChangeOf(files, p) in changes;
    var i :| 0 <= i < |changes| && changes[i] == ChangeOf(files, p);
    forall q | q in paths && q != p && Outdated(files, q)
      ensures q.dir != p.dir || Renamed(q.name) != Renamed(p.name)
    {
      NeedsMeans(files, q);
      assert ChangeOf(files, q) in changes;
      var j :| 0 <= j < |changes| && changes[j] == ChangeOf(files, q);
      assert i != j && changes[i].target != changes[j].target;
    }
  }

  lemma MayRenameAccepted(files: Files, paths: seq<Path>)
    requires Distinct(paths)
    requires forall p :: p in paths && Outdated(files, p) ==> MayRename(files, paths, p)
    ensures Acceptable(files, Pending(files, paths))
  {
    hide Renamed, Pending, Distinct, MayRename;
    var changes := Pending(files, paths);
    PendingMembers(files, paths);
    PendingDistinct(files, paths);
    forall i | 0 <= i < |changes|
      ensures Admissible(files, changes, i)
    {
      assert changes[i] in changes;
      var p := changes[i].source;
      NeedsMeans(files, p);
      assert MayRename(files, paths, p);
      forall j | 0 <= j < i
        ensures changes[j].target != changes[i].target
      {
        assert changes[j] in changes;
        NeedsMeans(files, changes[j].source);
        ApartByName(files, paths, p, changes[j].source);
      }
      TargetFree(files, paths, p);
    }
  }

  lemma ApartByName(files: Files, paths: seq<Path>, p: Path, q: Path)
    requires MayRename(files, paths, p) && q in paths && q != p && Outdated(files, q)
    ensures TargetOf(p) != TargetOf(q)
  {
    hide Renamed;
  }

  lemma TargetFree(files: Files, paths: seq<Path>, p: Path)
    requires MayRename(files, paths, p)
    ensures p in files && files[p].File? && (TargetOf(p) == p || !Exists(files, TargetOf(p)))
  {
    hide Renamed;
  }

  /** After a migration no file it looks at has an old word in its name or text. */
  lemma NoOldWordInstalled(files: Files, home: string, repos: seq<string>, paths: seq<Path>, after: Files, p: Path)
    requires Lists(files, home, repos, paths) && RenamedAtOnce(files, Pending(files, paths), after)
    requires p in after && (after[p].File? || after[p].Link?) && Installed(home, repos, p)
    ensures Clean(after[p].text) && Clean(p.name)
  {
    hide Renamed, Clean, Pending, Installed, IsCandidate;
    var changes := Pending(files, paths);
    PendingMembers(files, paths);
    CandidatesMean(home, repos, p);
    if p in Targets(changes) {
      var c :| c in changes && c.target == p;
      assert after[p] == File(c.updated, ModeOf(files, c.source));
      RenamedTwice(c.original);
      RenamedTwice(c.source.name);
    } else {
      PendingSource(files, paths, p);
    }
    RenamedFixesOnlyClean(after[p].text);
    RenamedFixesOnlyClean(p.name);
  }

  /** The migration leaves every entry it does not rename alone if and only if no
      planned target is a dangling link. */
  lemma NothingElseReplacedIff(files: Files, paths: seq<Path>, after: Files)
    requires Distinct(paths) && Acceptable(files, Pending(files, paths))
    requires RenamedAtOnce(files, Pending(files, paths), after)
    ensures var changes := Pending(files, paths);
            (forall p :: p in files && p !in Sources(changes) ==> p in after && after[p] == files[p]) <==>
            (forall c :: c in changes && c.target in files ==> !files[c.target].Dangling?)
  {
    hide Renamed, Pending;
    var changes := Pending(files, paths);
    PlanIsSane(files, paths);
    forall c | c in changes && c.target in files
      ensures files[c.target].Dangling? <==> c.target !in Sources(changes)
      ensures files[c.target] != after[c.target] || !files[c.target].Dangling?
    {
      TargetIsSourceOrDangling(files, changes, c);
    }
    hide Sane, Acceptable;
  }

  lemma TargetIsSourceOrDangling(files: Files, changes: seq<Change>, c: Change)
    requires Sane(files, changes) && c in changes && c.target in files
    ensures files[c.target].Dangling? <==> c.target !in Sources(changes)
  {
    var i :| 0 <= i < |changes| && changes[i] == c;
    if c.target in Sources(changes) {
      var d :| d in changes && d.source == c.target;
      var j :| 0 <= j < |changes| && changes[j] == d;
      assert files[changes[j].source].File?;
    }
  }

  const OLD_CUE := Path("h", "steward.cue")
  const NEW_CUE := Path("h", "landing.cue")

  lemma StewardCueRenamed()
    ensures TargetOf(OLD_CUE) == NEW_CUE
    ensures TargetOf(NEW_CUE) == NEW_CUE
  {
    hide Renamed;
    OldWordRenamed();
    CueRenamed("steward");
    RenamedTwice(OLD_CUE.name);
    assert LOWER_CASE.pattern == "steward" && LOWER_CASE.replacement == "landing";
    assert "steward" + "." + "cue" == OLD_CUE.name && "landing" + "." + "cue" == NEW_CUE.name;
  }

  lemma CueRenamed(stem: string)
    ensures Renamed(stem + "." + "cue") == Renamed(stem) + "." + "cue"
  {
    hide Renamed;
    RenamedAcrossDot(stem, "cue");
    ShortTextKept("cue");
  }

  const WITH_DANGLING: Files := map[OLD_CUE := File("", 420), NEW_CUE := Dangling]

  lemma DanglingListed()
    ensures Lists(WITH_DANGLING, "h", [], [NEW_CUE, OLD_CUE])
  {
    assert "h" in Roots("h", []);
    assert NEW_CUE.name[|NEW_CUE.name| - 4..] == ".cue" && OLD_CUE.name[|OLD_CUE.name| - 4..] == ".cue";
    assert IsCandidate("h", [], NEW_CUE) && IsCandidate("h", [], OLD_CUE);
    DifferentCues();
  }

  lemma DifferentCues()
    ensures NEW_CUE != OLD_CUE
  {
    assert NEW_CUE.name[0] != OLD_CUE.name[0];
  }

  lemma DanglingPlan()
    ensures Pending(WITH_DANGLING, [NEW_CUE, OLD_CUE]) == [Change(OLD_CUE, NEW_CUE, "", "")]
  {
    hide Renamed;
    var paths := [NEW_CUE, OLD_CUE];
    StewardCueRenamed();
    ShortTextKept("");
    DifferentCues();
    assert paths[..1] == [NEW_CUE] && [NEW_CUE][..0] == [];
    assert Pending(WITH_DANGLING, []) == [];
    assert Pending(WITH_DANGLING, [NEW_CUE]) == [];
  }

  /** The failing input: a file to be renamed and a dangling link at its target.
      The plan is accepted, and the link is gone afterwards. */
  lemma DanglingLinkReplaced(after: Files)
    ensures Lists(WITH_DANGLING, "h", [], [NEW_CUE, OLD_CUE])
    ensures Acceptable(WITH_DANGLING, Pending(WITH_DANGLING, [NEW_CUE, OLD_CUE]))
    ensures NEW_CUE in WITH_DANGLING && NEW_CUE !in Sources(Pending(WITH_DANGLING, [NEW_CUE, OLD_CUE]))
    ensures RenamedAtOnce(WITH_DANGLING, Pending(WITH_DANGLING, [NEW_CUE, OLD_CUE]), after) <==>
              after == map[NEW_CUE := File("", 420)]
  {
    hide Pending, Renamed, Lists;
    DanglingListed();
    DanglingPlan();
    DifferentCues();
    var c := Change(OLD_CUE, NEW_CUE, "", "");
    assert c in [c];
    assert Targets([c]) == {NEW_CUE} && Sources([c]) == {OLD_CUE};
  }

  /** After a migration a second plan has nothing to do and cannot fail. */
  lemma SecondPlanIsEmpty(files: Files, home: string, repos: seq<string>, paths: seq<Path>, after: Files,
      again: seq<Path>)
    requires Lists(files, home, repos, paths) && Sane(files, Pending(files, paths))
    requires RenamedAtOnce(files, Pending(files, paths), after)
    requires Lists(after, home, repos, again)
    ensures Pending(after, again) == []
  {
    hide Renamed;
    var changes := Pending(files, paths);
    PendingMembers(files, paths);
    forall p | p in again
      ensures !NeedsChange(after, p)
    {
      if IsFile(after, p) {
        if p in Targets(changes) {
          var c :| c in changes && c.target == p;
          var i :| 0 <= i < |changes| && changes[i] == c;
          RenamedTwice(c.original);
          RenamedTwice(c.source.name);
        } else {
          assert p in files && p in paths && p !in Sources(changes);
          PendingSource(files, paths, p);
        }
      }
    }
    NothingPending(after, again);
  }

  lemma {:induction false} NothingPending(files: Files, paths: seq<Path>)
    requires forall p :: p in paths ==> !NeedsChange(files, p)
    ensures Pending(files, paths) == []
  {
    if paths != [] {
      NothingPending(files, paths[..|paths| - 1]);
    }
  }

  /** Plan and apply together, as `main` runs them.  It succeeds exactly when the
      plan is acceptable and no temporary name is taken; refused, it changes
      nothing; stopped, it has renamed the files before the taken name. */
  method Migrate(installation: Installation, home: string, repos: seq<string>, paths: seq<Path>)
    returns (r: Result<seq<Change>, MigrateError>)
    requires Lists(installation.files, home, repos, paths)
    modifies installation
    ensures var files, changes := old(installation.files), Pending(old(installation.files), paths);
            && (r.Err? && r.error.PlanRefused? <==> !Acceptable(files, changes))
            && (r.Ok? <==> Acceptable(files, changes) && forall c :: c in changes ==> !Blocked(files, c))
    ensures r.Err? && r.error.PlanRefused? ==>
              installation.files == old(installation.files) && installation.actions == old(installation.actions)
    ensures var files, changes := old(installation.files), Pending(old(installation.files), paths);
            Acceptable(files, changes) ==>
              exists n: nat ::
                && StopsAt(files, changes, n, installation.files, if r.Ok? then Ok(()) else Err(r.error.apply))
                && installation.actions == old(installation.actions) + Saves(changes) + Moves(changes[..n])
    ensures r.Ok? ==>
              && r.value == Pending(old(installation.files), paths)
              && RenamedAtOnce(old(installation.files), r.value, installation.files)
              && (forall again :: Lists(installation.files, home, repos, again) ==>
                 Pending(installation.files, again) == [])
              && forall c :: c in r.value ==>
                 c.source in installation.backups && installation.backups[c.source] == c.original
  {
    hide Lists, Acceptable, RenamedAtOnce, Pending, Saves, Moves, Sane, TemporariesApart, Blocked;
    ghost var before := installation.files;
    var plan := Plan(installation.files, paths);
    if plan.Err? {
      return Err(PlanRefused(plan.error));
    }
    var changes := plan.value;
    ListsDistinct(before, home, repos, paths);
    PlanIsSane(before, paths);
    PlanTemporaries(before, home, repos, paths);
    var applied := installation.Apply(changes);
    ghost var n: nat :| StopsAt(before, changes, n, installation.files, applied)
                        && installation.actions == old(installation.actions) + Saves(changes) + Moves(changes[..n]);
    StopsWithin(before, changes, n, installation.files, applied);
    if applied.Err? {
      return Err(Stopped(applied.error));
    }
    SecondPlansEmpty(before, home, repos, paths, installation.files);
    r := Ok(changes);
  }

  lemma StopsWithin(files: Files, changes: seq<Change>, n: nat, after: Files, r: Result<(), ApplyError>)
    requires StopsAt(files, changes, n, after, r)
    ensures r.Ok? ==> RenamedAtOnce(files, changes, after)
    ensures r.Ok? <==> forall c :: c in changes ==> !Blocked(files, c)
  {
    if r.Ok? {
      assert changes[..n] == changes;
    } else {
      assert changes[n] in changes;
    }
  }

  lemma ListsDistinct(files: Files, home: string, repos: seq<string>, paths: seq<Path>)
    requires Lists(files, home, repos, paths)
    ensures Distinct(paths)
  {
  }

  lemma SecondPlansEmpty(files: Files, home: string, repos: seq<string>, paths: seq<Path>, after: Files)
    requires Lists(files, home, repos, paths) && Sane(files, Pending(files, paths))
    requires RenamedAtOnce(files, Pending(files, paths), after)
    ensures forall again :: Lists(after, home, repos, again) ==> Pending(after, again) == []
  {
    hide Lists, RenamedAtOnce, Pending, Sane;
    forall again | Lists(after, home, repos, again)
      ensures Pending(after, again) == []
    {
      SecondPlanIsEmpty(files, home, repos, paths, after, again);
    }
  }
}
