# Verified model of the Rat Kingdom observation and evidence tools

A Dafny model of five parts of the `rk` command line tool, with proofs of what
their documentation promises. Code that works by updating state is modelled by
methods and classes and proved against functions of the inputs or of the old
state; the main results are lemmas about those functions.

| files | part |
|---|---|
| `ObservationStore.dfy`, `ObservationHistory.dfy`, `ObservationCollector.dfy`, `ObservationLines.dfy` | the append-only observation log with its disposable checkpoint: replay, repair, crashes at any byte, whole histories, and arbitrary logs line by line |
| `Renaming.dfy`, `NameMigration.dfy` | the chained renaming of the landing terminology, and the plan that applies it file by file |
| `CriticalPath.dfy` | the span reader: sort, keep first occurrences, total |
| `Rollover.dfy` | the drain, stop, replace, respawn protocol against an arbitrary daemon |
| `EvidenceRecords.dfy`, `TupleCapture.dfy`, `EvidenceIndex.dfy`, `Enrollment.dfy`, `EvidenceReport.dfy`, `EvidenceMeaning.dfy`, `EvidenceResults.dfy`, `MechanismGoal.dfy`, `MechanismGoalExample.dfy` | the evidence report: capture and order claim, index, enrolled pairs, receipts, verdicts, author exits, the mechanism goal and a capture that meets it |
| `DeliveryCost.dfy`, `DeliveryReplay.dfy`, `DeliveryMeaning.dfy` | delivery cost: cumulative usage segments, finality, totals, launch attempts |
| `Basics.dfy`, `StableSort.dfy` | optional values, string order, the standard library's stable sort |

Where a method and its specification share a helper that reads one record, line or
reply, that helper is proved equivalent to a second reading of it in plain fields and
literal values (`EvidenceMeaning.dfy`, `DeliveryMeaning.dfy`, `ObservationLines.dfy`
and the lemmas named `…Mean` or `…Means`); the main results are stated in that second
reading.

## Assumptions

- Observation log. JSON, SHA-256 and the progress evaluator are functions of a
  `Host`. `Lawful`: the digest is injective, JSON ignores a trailing newline and
  reads no value from blank input. `Sound`, of each appended sample: its JSON holds
  no newline, parses back, no proper prefix of it parses, and it is stamped with the
  supported schema. `AssumptionsCanHold` exhibits a host with all of these, and samples
  of another schema that meet all but the last. A file
  is a sequence of bytes; a crash keeps any prefix of an append in flight; saving
  a recovery fragment, truncating and replacing the checkpoint are atomic; nobody
  else edits the log. The manifest stands for its serialised bytes, the evaluator's
  state is text only the evaluator reads.
- Migration. A file system maps paths to files, links, dangling links and
  directories; two paths never alias; nothing else writes during a migration.
- Rollover. Daemon, process table and clock answer what a finite script says; after
  its end every call fails and every deadline has passed.
- Evidence. A record is a JSON object read field by field. The verdicts of the
  record-shape checks on identities, authors and spans are fields of the record
  (`mintedIdentity`, `castleAuthor`, `spanOk`, `taskReadable`). Times are integers,
  money is real, `trim` removes the four ASCII blanks.

## Findings

- `append` does not look at the schema version of a sample, and the checkpoint it
  then writes is trusted by its digest alone. What it leaves reopens if and only if
  the version is supported or the record is at most 64 MiB long; a full replay of the
  same log succeeds if and only if the version is supported; so checkpoint and full
  replay disagree if and only if the version is unsupported and the record that short
  (`AppendTrustsTheSchema`; `SchemaSlipsThrough` is the failing input). In histories
  whose samples carry the supported schema they always agree
  (`EveryOpenIsAFullReplay`).
- A migration plan tests its targets with `exists`, which follows links, so a
  dangling link at a target is replaced. The migration leaves every entry it does not
  rename alone if and only if no planned target is a dangling link
  (`NothingElseReplacedIff`; `DanglingLinkReplaced` is the failing input).
- The critical path depends on the order of its rows when two different rows share
  an id and no smaller id holds their key. `OrderIrrelevantIff` shows that the order
  of the very same rows is irrelevant if and only if there is no such pair, and that
  repeating rows is then irrelevant too; distinct ids are enough.
- Launch attempts equal the larger of sessions and launch events exactly when no
  session exits twice (`AttemptsAreLarger`); each further exit record of a session
  counts one more.
- In `segment_finality` the stale-session branch only chooses the words: no segment
  it rejects would pass the agreement test after it (`FinalMeans`).

## Model

| member | source | states |
|---|---|---|
| ObservationStore.CheckpointIsDisposable | crates/rk-cli/src/observation_store.rs:83-143 | on any log, `open` with no checkpoint, or with any checkpoint that summarises this log under any manifest or evaluator (as every checkpoint does whose collector appended samples of the supported schema), gives the same state or error and the same writes as a full replay from nothing |
| ObservationStore.ReplayResumes | crates/rk-cli/src/observation_store.rs:236-301 | replaying the whole lines up to a point and then the tail from there is replaying everything |
| ObservationStore.ReplaySplits | crates/rk-cli/src/observation_store.rs:239-297 | a replay is the replay of the committed lines followed by the repair of an unfinished last one |
| ObservationStore.OpenCrash | crates/rk-cli/src/observation_store.rs:252-280 | what the run directory holds after a crash at any point of an open |
| ObservationStore.OpenKeepsCommitted | crates/rk-cli/src/observation_store.rs:252-280 | no crash point of an open changes a committed byte of the log or a saved fragment |
| ObservationStore.CutBytesAreSaved | crates/rk-cli/src/observation_store.rs:255-279 | when an open truncates the log, a fragment named by offset and digest already holds exactly the bytes it cuts |
| ObservationStore.OpenSummarises | crates/rk-cli/src/observation_store.rs:127-142 | after a successful open the offset is the file length, the state is the full replay of the log, and the checkpoint on disk is that state |
| ObservationStore.OpenIsStable | crates/rk-cli/src/observation_store.rs:83-143 | a second open has the same result and leaves log, checkpoint and fragments as they are |
| ObservationLines.EveryLogSplits | crates/rk-cli/src/observation_store.rs:239-244 | every log is a list of finished lines and what follows its last newline |
| ObservationLines.OpenReadsTheLog | crates/rk-cli/src/observation_store.rs:236-301 | for every log and no checkpoint: open succeeds if and only if each finished line is blank or holds a sample of schema 1 numbered after the non-blank lines before it, and an unfinished last line that parses does too; the state is then that of those samples; otherwise the error gives the offset of the first line out of order and which fault it has |
| ObservationLines.OpenLeavesTheLines | crates/rk-cli/src/observation_store.rs:252-280 | a successful open leaves the finished lines, the last one finished if it holds a sample and cut off if not, its bytes saved under offset and digest either way |
| ObservationLines.OnlyFittingCheckpointsCount | crates/rk-cli/src/observation_store.rs:103-116 | a checkpoint of another manifest or evaluator, or whose last line is not in the log with that digest, is ignored; one that fits and covers the whole log is the result |
| ObservationHistory.CursorIsGreatest | crates/rk-cli/src/observation_store.rs:218-227 | the cursor kept is one that some sample carried and none carried a greater one |
| ObservationHistory.AbsorbExtends | crates/rk-cli/src/observation_store.rs:203-234 | absorbing a sample takes the state of a sample list to the state of the longer list |
| ObservationHistory.ReplayGivesState | crates/rk-cli/src/observation_store.rs:236-301 | replaying the records of a sample list gives the state of that list |
| ObservationHistory.StepKeepsInv | crates/rk-cli/src/observation_store.rs:83-201 | every open, append, I/O failure, crash at any byte, exit, lost or rolled-back checkpoint keeps the invariant that the log is the absorbed samples' records and a possible torn one, and every checkpoint issued is the state of a prefix |
| ObservationHistory.EveryOpenIsAFullReplay | crates/rk-cli/src/observation_store.rs:83-143 | after every history an open succeeds, whatever checkpoint is left, with the state of the absorbed samples, numbered 1 to n, and leaves exactly their records in the log |
| ObservationHistory.CrashedAppendIsAtomic | crates/rk-cli/src/observation_store.rs:183-201 | a crash at any byte of an append followed by a reopen leaves the samples as before or extended by exactly the new one, the latter if and only if all its JSON bytes landed |
| ObservationHistory.LiveStateIsCurrent | crates/rk-cli/src/observation_store.rs:183-191 | a live collector accepts the next sample if and only if its state is that of all absorbed samples and the log is exactly their records |
| ObservationHistory.ReadinessInEveryRun | crates/rk-cli/src/observation_store.rs:154-160 | in every run `ready_since` has exactly the tickets ready in the last absorbed sample, each with the time of the first sample of its latest unbroken run, and the cursor is the greatest ever seen |
| ObservationHistory.EveryCutIsSaved | crates/rk-cli/src/observation_store.rs:252-278 | in every run the bytes an open cuts are held in a fragment when it cuts them |
| ObservationHistory.CommittedBytesNeverChange | crates/rk-cli/src/observation_store.rs:183-201 | no step changes a byte of the log in front of its last newline |
| ObservationHistory.AgesInEveryRun | crates/rk-cli/src/observation_store.rs:154-181 | in every run the age of a ticket is counted from the first sample of its latest unbroken run of readiness, zero if it is not ready, and the gap from the last sample or the start |
| ObservationHistory.AppendTrustsTheSchema | crates/rk-cli/src/observation_store.rs:183-200 | append accepts a sample of any schema version; the directory it leaves opens if and only if the version is supported or the record short enough to be checked, a full replay succeeds if and only if it is supported, and the two agree if and only if it is supported or the record too long |
| ObservationHistory.SchemaSlipsThrough | crates/rk-cli/src/observation_store.rs:308-320 | an appended sample of another schema whose checkpoint reopens while a full replay refuses the log |
| ObservationHistory.AssumptionsCanHold | crates/rk-cli/src/observation_store.rs:192-193 | some host keeps all assumptions for samples of every number, and round-trips samples of another schema |
| ObservationCollector.ObservationLog.OpenRun | crates/rk-cli/src/observation_store.rs:83-143 | the method issues exactly the specified writes in order, and on success holds the specified state and all fragments on disk |
| ObservationCollector.ObservationLog.ReplayTailInPlace | crates/rk-cli/src/observation_store.rs:236-301 | the loop that reassigns state and repairs the file computes the specified replay, its writes and its error |
| ObservationCollector.ObservationLog.AbsorbInPlace | crates/rk-cli/src/observation_store.rs:203-234 | the field-by-field update equals the specified new state |
| ObservationCollector.ObservationLog.AppendSample | crates/rk-cli/src/observation_store.rs:183-201 | refuses without a write and without a change, or writes, absorbs and checkpoints in that order and clears the recoveries |
| Renaming.ChainIsScan | scripts/migrate-landing-names.py:12-23 | for these rules, replacing rule after rule over the whole text is one pass that rewrites every position at most once |
| Renaming.Rename | scripts/migrate-landing-names.py:12-23 | the loop that reassigns the text computes that one pass |
| Renaming.NoOldWordLeft | scripts/migrate-landing-names.py:12-23 | no renamed text contains an old word in any of its three spellings, not even across the seams of replaced pieces |
| Renaming.RenamedFixesOnlyClean | scripts/migrate-landing-names.py:12-23 | a text is left alone if and only if no old word occurs in it |
| Renaming.RenamedTwice | scripts/migrate-landing-names.py:12-23 | renaming is idempotent |
| Renaming.RenamedAcrossDot | scripts/migrate-landing-names.py:39-39 | a file name is renamed on each side of a dot separately, so it keeps its extension |
| Renaming.WorkflowsRenamed | scripts/migrate-landing-names.py:14-15 | what each of the two workflow names becomes, in front of any text |
| Renaming.ReviewsRenamed | scripts/migrate-landing-names.py:16-17 | what the review becomes, as a name and as an identifier, in front of any text |
| Renaming.WordRenamed | scripts/migrate-landing-names.py:18-20 | what the old word becomes in each spelling, in front of any text that does not make it a longer name |
| Renaming.OtherCharactersKept | scripts/migrate-landing-names.py:21-23 | a character at which no old word begins stays |
| NameMigration.Plan | scripts/migrate-landing-names.py:26-48 | succeeds if and only if no change overwrites a file, replaces a link or shares a target, then plans every file that needs it; an error names the first obstacle |
| NameMigration.AcceptedMeans | scripts/migrate-landing-names.py:34-47 | a plan is accepted if and only if every readable file with an old word in text or name is no link, takes no name of anything but a dangling link, and shares its new name with no other such file; it is then about exactly those files |
| NameMigration.PlanIsSane | scripts/migrate-landing-names.py:42-47 | in an accepted plan sources and targets are pairwise different, no target is another change's source, and no target exists unless it is the change's own source |
| NameMigration.TemporaryIsNoCandidate | scripts/migrate-landing-names.py:79-79 | no temporary name is a file the migration looks at, nor the target of one |
| NameMigration.TurnIsReady | scripts/migrate-landing-names.py:76-80 | when its turn comes, each planned change finds its source unchanged, no directory at its target and its temporary name as free as at the start, and making it extends the renaming at once |
| NameMigration.Installation.ApplyOne | scripts/migrate-landing-names.py:77-85 | when it stops, with which error and with what on disk - source changed, temporary name taken, directory at the target - and the one move it makes otherwise, with the mode of the source |
| NameMigration.Installation.Apply | scripts/migrate-landing-names.py:70-85 | every backup is written before the first file is replaced; on a plan made for these files only a temporary name already taken stops the loop, and what is done by then, all of it if none is taken, is the renaming of those files at once |
| NameMigration.NothingElseTouched | scripts/migrate-landing-names.py:76-85 | a path that disappears has its renamed text at its target; a path that changes was renamed in place or was a dangling link |
| NameMigration.NothingElseReplacedIff | scripts/migrate-landing-names.py:42-43 | every entry that is not renamed is left alone if and only if no planned target is a dangling link |
| NameMigration.DanglingLinkReplaced | scripts/migrate-landing-names.py:42-43 | an accepted plan after which a dangling link is a file |
| NameMigration.SecondPlanIsEmpty | scripts/migrate-landing-names.py:26-48 | after a migration nothing is left to plan |
| NameMigration.NoOldWordInstalled | scripts/migrate-landing-names.py:26-48 | after a migration no file in the home, in a repository's `.rk`, or in their workflow, trigger and schedule directories has an old word in name or text |
| NameMigration.Migrate | scripts/migrate-landing-names.py:57-85 | plan and apply together: succeeds if and only if the plan is acceptable and no temporary name is taken; a refused plan changes nothing; a stopped run has renamed exactly the files before the taken name; a success is the renaming at once, backed up first, after which every plan is empty |
| CriticalPath.PhasesAreSmallestIds | crates/rk-cli/src/critical_path.rs:72-103 | the phases are exactly the rows that no row with the same six-part key and a smaller id shadows, in increasing id order |
| CriticalPath.OnlyTheSetMatters | crates/rk-cli/src/critical_path.rs:60-71 | reordering and replaying rows leaves the phases as they are |
| CriticalPath.ShadowedRowChangesNothing | crates/rk-cli/src/critical_path.rs:74-103 | a row anywhere whose key is held under a smaller id changes nothing, with no assumption on ids |
| CriticalPath.OrderIrrelevantIff | crates/rk-cli/src/critical_path.rs:60-71 | the order of the very same rows is irrelevant if and only if no two different unshadowed rows share an id, and so is their repetition |
| CriticalPath.ReplayKeepsSummary | crates/rk-cli/src/critical_path.rs:72-185 | a replayed or shadowed row leaves the whole summary as it was |
| CriticalPath.SurvivorsMean | crates/rk-cli/src/critical_path.rs:89-103 | with distinct ids a row survives if and only if no row with the same phase, attempt, target, candidate, lane and key has a smaller id, a missing phase reading "?" and a missing attempt 1 |
| CriticalPath.TaskToMainMeans | crates/rk-cli/src/critical_path.rs:112-122 | the time to main is the time from the last "ticket_ready", queued or else started, to the end of the last "merge", when both can be read, and nothing else; in flight means no "merge" |
| CriticalPath.ReasonMeans | crates/rk-cli/src/critical_path.rs:159-161 | the reason is that of the last attention hold if it gives one, otherwise that of the last phase |
| CriticalPath.TargetMeans | crates/rk-cli/src/critical_path.rs:162-163 | target and candidate are those of the last phases that have one |
| CriticalPath.CountsMean | crates/rk-cli/src/critical_path.rs:124-136 | rounds and proofs are numbers of phases, amplification is rework per review and absent without one |
| CriticalPath.AuthorityTimesMean | crates/rk-cli/src/critical_path.rs:138-157 | human and model time are the sums of the durations of their phases, absent when there is none |
| CriticalPath.BuildCriticalPath | crates/rk-cli/src/critical_path.rs:72-185 | the in-place algorithm gives the summary of the phases, the same for every listing of the rows when ids decide |
| CriticalPath.AuthorityTime | crates/rk-cli/src/critical_path.rs:138-157 | the running totals are the time per authority, absent when no phase has any |
| Rollover.RolloverDrain | crates/rk-cli/src/main.rs:943-984 | pauses and then only polls; returns the generations live at the pause and live in every poll, some only once the deadline has passed; an error is the call that failed |
| Rollover.DrainedMeans | crates/rk-cli/src/main.rs:948-983 | left after the drain are exactly the generations named live by the pause with a "running" or "spawning" row in each poll; any other has a poll without one |
| Rollover.WaitForOldInstanceExit | crates/rk-cli/src/main.rs:1023-1042 | only observes; true if and only if the last answer shows the old process gone, false only once the deadline has passed |
| Rollover.ConfirmReplacement | crates/rk-cli/src/main.rs:825-871 | success needs the old process seen gone first and then a status of another pid with the expected build; each failure has its cause in the last answer |
| Rollover.Reconcile | crates/rk-cli/src/main.rs:873-901 | respawns exactly the parked generations that are orphaned, each once in order, and reports each outcome |
| Rollover.DaemonRollover | crates/rk-cli/src/main.rs:784-925 | whatever the environment answers: dispatch is never resumed after stop was called and always when it was paused and stop was not; respawns only after the old pid no longer shows its start time (its socket refuses, only if that was never known) and another pid with the expected build answers; whatever is respawned was listed as "orphaned" after the accepted stop; on success respawned are exactly the generations named live by the pause, with a "running" or "spawning" row in every poll and an "orphaned" one in the list after; every error is justified by what happened |
| Rollover.ReportCoversAttempts | crates/rk-cli/src/main.rs:875-900 | the respawned and failed names together are the attempted ones, each once |
| Rollover.ReportMeans | crates/rk-cli/src/main.rs:889-900 | a name is reported respawned if and only if a respawn of it was answered, and failed with an error if and only if a respawn of it failed with that error |
| EvidenceRecords.CheckEvidence | crates/rk-cli/src/bbs_report.rs:1683-1749 | the single pass finds resolved, unknown or invalid as the three conditions on the whole list say |
| TupleCapture.OrderDefect | crates/rk-cli/src/bbs_report.rs:640-678 | comparing neighbours finds a defect if and only if the page is not strictly ascending or some record has no position |
| TupleCapture.SubstantiatedMeans | crates/rk-cli/src/bbs_report.rs:640-678 | a claim fails if and only if some record has no position or a page record has one no greater than an earlier one's |
| TupleCapture.ParseCapture | crates/rk-cli/src/bbs_report.rs:681-753 | a declared order is accepted if and only if the records substantiate it; anything else is unknown order |
| TupleCapture.Merge | crates/rk-cli/src/bbs_report.rs:606-637 | the loop gives the merged list and counts as duplicates exactly the closure records whose id is on the page |
| TupleCapture.MergedMembers | crates/rk-cli/src/bbs_report.rs:606-637 | the merged records are the page and the closure records whose id is not on the page |
| TupleCapture.AcceptedOrderIsPersistence | crates/rk-cli/src/bbs_report.rs:600-678 | under an accepted order the merged list is in order of position and id, and page records keep their array order in it |
| EvidenceIndex.BuildIndex | crates/rk-cli/src/bbs_report.rs:1944-2452 | the loop with its many exits fills the tables that the predicates on single records specify |
| EvidenceIndex.Builder.Add | crates/rk-cli/src/bbs_report.rs:2027-2448 | one record extends every table exactly as its predicates say |
| EvidenceIndex.PreparedMembers | crates/rk-cli/src/bbs_report.rs:2030-2093 | a native exposure is indexed if and only if a captured, admitted exposure record lists that source for that generation |
| EvidenceIndex.RejectedMembers | crates/rk-cli/src/bbs_report.rs:1944-2452 | an id is rejected if and only if a captured record of that id breaks the contract of its kind |
| EvidenceMeaning.TablesMean | crates/rk-cli/src/bbs_report.rs:1944-2452 | in the fields of the records: exactly which are receipts, verdicts and rejected, and exactly which launch rows each record gives |
| EvidenceMeaning.OnlyTheOperatorAssesses | crates/rk-cli/src/bbs_report.rs:1644-1655 | a record that claims to be an assessment by anyone but the operator is rejected and is no verdict in any index |
| EvidenceMeaning.ExitTableMeans | crates/rk-cli/src/bbs_report.rs:2134-2195 | the exit rows are those of the daemon's attributable, dated exits inside repositories and window, field by field |
| EvidenceMeaning.ExposureTablesMean | crates/rk-cli/src/bbs_report.rs:2030-2132 | a source counts as shown to, or opened by, a generation if and only if such a record of the daemon says so |
| EvidenceMeaning.ByIdIsLast | crates/rk-cli/src/bbs_report.rs:1944-1994 | an id stands for the last record that has it |
| EvidenceMeaning.EvidenceMeans | crates/rk-cli/src/bbs_report.rs:1683-1749 | evidence is resolved, not invalid, or invalid according to what its ids name, in the fields of the records named |
| EvidenceMeaning.ExclusionMeans | crates/rk-cli/src/bbs_report.rs:2805-2865 | exactly when a pair is excluded for each reason, and in which order the reasons are tried |
| EvidenceMeaning.ClaimIsFirst | crates/rk-cli/src/bbs_report.rs:2867-2960 | the claim is the first receipt in capture order that supports the pair |
| EvidenceMeaning.CoverageMeans | crates/rk-cli/src/bbs_report.rs:3038-3073 | exactly when coverage is of each of the five kinds: native telemetry before any review |
| EvidenceMeaning.EffectMeans | crates/rk-cli/src/bbs_report.rs:3113-3123 | exactly when a pair is a verified effect and when it counts |
| EvidenceMeaning.AuthorExitMeans | crates/rk-cli/src/bbs_report.rs:2460-2569 | exactly when an author exit is credited, in the fields of the named record, the first exit row of its id and the launch rows |
| Enrollment.ValidateManifest | crates/rk-cli/src/bbs_report.rs:408-526 | the loops accept exactly the manifests with distinct batches, tasks and pair ids, all bound to declared batches of their repository and inside the declared repositories |
| Enrollment.ManifestMeans | crates/rk-cli/src/bbs_report.rs:408-526 | the manifests accepted are exactly those in order, condition by condition in their fields |
| Enrollment.MergePairs | crates/rk-cli/src/bbs_report.rs:894-967 | succeeds if and only if every review either adds to a predeclared pair or mints one bound to frozen batch and task, once per pair; an error names the first offending review and the first thing wrong with it |
| Enrollment.EntriesMean | crates/rk-cli/src/bbs_report.rs:907-956 | the reviews accepted are exactly those permitted, in the fields of review and manifest |
| Enrollment.EnrollmentIsSound | crates/rk-cli/src/bbs_report.rs:890-967 | enrolled ids are pairwise different, predeclared pairs are unchanged, minted ones have the declared fields, every enrolled pair is in the frozen scope, every review is about an enrolled pair |
| Enrollment.ReportOrder | crates/rk-cli/src/bbs_report.rs:2734-2735 | the report goes through exactly the enrolled pairs in strictly increasing id order |
| Enrollment.ReviewOrderIrrelevant | crates/rk-cli/src/bbs_report.rs:2734-2735 | the order in which reviews are listed does not matter |
| EvidenceReport.EvaluatePairs | crates/rk-cli/src/bbs_report.rs:2786-3151 | the loop with its early exits excludes and evaluates as specified pair by pair, the duplicate test included |
| EvidenceReport.FirstClaim | crates/rk-cli/src/bbs_report.rs:2867-2960 | the claim is a receipt of the exact generation on resolved evidence, not before its source; if there is none, no receipt qualifies |
| EvidenceReport.EvaluateOpportunity | crates/rk-cli/src/bbs_report.rs:2962-3150 | the step-by-step evaluation computes the specified result |
| EvidenceResults.VerdictIsLatest | crates/rk-cli/src/bbs_report.rs:3006-3017 | under an accepted order the verdict is an operator's verdict on the receipt, on resolved evidence, and no other such one has a greater position and id; there is none only if there is no such one |
| EvidenceResults.UnknownOrderDecidesNothing | crates/rk-cli/src/bbs_report.rs:3018-3029 | under unknown order two verdicts that may decide stand for none and the pair is never an effect |
| EvidenceResults.LoneVerdictStands | crates/rk-cli/src/bbs_report.rs:3001-3005 | a verdict that alone may decide stands under any order |
| EvidenceResults.AuthorExitIsProved | crates/rk-cli/src/bbs_report.rs:2460-2569 | a credited author exit is a captured exit of that repository, task and generation, by the same agent where both name one, not stale, not after the claim, with no launch of that generation under another or unknown session captured in between |
| EvidenceResults.LaunchesOnlyWithdraw | crates/rk-cli/src/bbs_report.rs:1927-1941 | indexing more launch rows can withdraw that credit and never grant it |
| EvidenceResults.PairsPartition | crates/rk-cli/src/bbs_report.rs:2786-2865 | every enrolled pair is excluded or evaluated, exactly once |
| EvidenceResults.ExcludedAre | crates/rk-cli/src/bbs_report.rs:2786-2865 | the excluded list holds exactly the pairs left out, each with its reason, a repeated opportunity first |
| EvidenceResults.KeysDiffer | crates/rk-cli/src/bbs_report.rs:2787-2804 | no repository, source, task and generation is evaluated twice |
| EvidenceResults.Discover | crates/rk-cli/src/bbs_report.rs:3153-3191 | each coverage class is counted, the five add up to the eligible pairs, and the rate is the prepared fraction of the known ones or absent |
| MechanismGoal.ComputeReport | crates/rk-cli/src/bbs_report.rs:2720-3318 | refuses exactly the invalid manifests and reviews; otherwise reports the specified exclusions and evaluations, their discovery counts, their distinct tasks, and the effects, batches and author exits with the goal met exactly when they suffice |
| MechanismGoal.CertifyGoal | crates/rk-cli/src/bbs_report.rs:3263-3318 | the goal is certified if and only if the capture has no known hole and effects, batches and author exits reach 3, 2 and 1 |
| MechanismGoal.GoalMeans | crates/rk-cli/src/bbs_report.rs:3286-3318 | the goal in numbers: three effects, two batches, one author exit, and a capture that is not truncated, does not call itself incomplete and lists no missing reference |
| MechanismGoal.CountReuse | crates/rk-cli/src/bbs_report.rs:3226-3261 | eligible and verified consumer tasks are counted once each however many pairs they have |
| MechanismGoal.TaskSetsMean | crates/rk-cli/src/bbs_report.rs:3226-3246 | a task is its repository and name, and verified when some pair of it is |
| MechanismGoal.ReviewTableMeans | crates/rk-cli/src/bbs_report.rs:2731-2732 | each review is found under its pair and nothing else is |
| MechanismGoal.EffectIsProved | crates/rk-cli/src/bbs_report.rs:2867-3123 | a counted effect has, among the captured records, a valid source by another generation, the receipt, an artifact of kind "assessment" by the operator that says "verified" on it, grounded evidence for all three, preparation and launch of the consumer, and no relay |
| MechanismGoal.GoalMetMeans | crates/rk-cli/src/bbs_report.rs:3263-3318 | a met goal stands on three or more enrolled pairs in frozen scope with pairwise different repository, source, task and generation, over two or more batches, each proved by the records, at least one after a proved author exit, in a capture that is neither truncated nor known to be incomplete |
| MechanismGoalExample.GoalCanBeMet | crates/rk-cli/src/bbs_report.rs:3263-3318 | a valid manifest, reviews in order and a capture in accepted order for which the goal is met |
| MechanismGoal.BadClaimsEraseNothing | crates/rk-cli/src/bbs_report.rs:2862-2866 | with distinct ids, adding records that no pair source and no evidence list of one names leaves the exclusions, the eligible pairs and the eligible tasks unchanged |
| DeliveryCost.FinalMeans | crates/rk-cli/src/bbs_report.rs:2610-2702 | a segment is final if and only if its last result is terminal and its exit claims final coverage and records the same state |
| DeliveryCost.Settle | crates/rk-cli/src/bbs_report.rs:3616-3667 | one segment moves each running total and flag so that they describe all segments so far |
| DeliveryCost.TotalsConserve | crates/rk-cli/src/bbs_report.rs:3634-3656 | the cost of every priced segment is in exactly one of the three totals or named as unpooled; nothing is lost or counted twice |
| DeliveryCost.CostOfDelivery | crates/rk-cli/src/bbs_report.rs:3384-3695 | the nested loops report a provider total if and only if there is a segment and every segment is final, priced and provider-based, and then it is the sum of all last rows; the other totals and the coverage as specified |
| DeliveryCost.CountLaunches | crates/rk-cli/src/bbs_report.rs:3462-3535 | exits, sessions seen only by usage and surplus launch events add up to the specified attempts |
| DeliveryCost.AttemptsAreLarger | crates/rk-cli/src/bbs_report.rs:3462-3535 | attempts are at least the larger of sessions and launch events, and equal it if and only if no session exits twice |
| DeliveryMeaning.ClosingsMean | crates/rk-cli/src/bbs_report.rs:3542-3601 | a segment's price and basis are those of the row no other comes after, and it is final if and only if that row is terminal, the order is accepted or the row the only one, and the first exit of that repository, task, generation, session and agent claims final coverage and records the row's state |
| DeliveryMeaning.PoolsMean | crates/rk-cli/src/bbs_report.rs:3634-3656 | which of the totals the cost of a segment joins, by finality, price and basis |
| DeliveryMeaning.ReportedMeans | crates/rk-cli/src/bbs_report.rs:3665-3683 | a provider total is reported if and only if the task has a usage row and every segment is final, priced and provider-based, and is then the sum over all segments |
| DeliveryMeaning.NoExitNoTotal | crates/rk-cli/src/bbs_report.rs:3573-3580 | a segment with no exit captured under its own session leaves the delivery without a total |
| DeliveryMeaning.GenerationsMean | crates/rk-cli/src/bbs_report.rs:3384-3404 | the generations of a delivery are those any exit, usage or launch row of the task names |
| DeliveryMeaning.AttemptsMean | crates/rk-cli/src/bbs_report.rs:3462-3535 | attempts against the sessions and launch events of the rows: at least the larger, and equal to it if and only if no session has two exit rows |
| DeliveryReplay.LastRowIsLastPersisted | crates/rk-cli/src/bbs_report.rs:3562-3575 | in a capture of accepted order the deciding row of a segment is that of a record that meters it, and no other such record has a greater position and id |
| DeliveryReplay.EarlierRowChangesNothing | crates/rk-cli/src/bbs_report.rs:3542-3575 | in any record list a usage record put in before another of its segment leaves closings, generations and attempts of every delivery as they were |
| DeliveryReplay.EarlierUsageChangesNothing | crates/rk-cli/src/bbs_report.rs:3542-3575 | an accepted capture with one more usage record, on the page or in the closure, of a smaller position or id than another of its segment reports the same cost of every delivery |
| DeliveryReplay.CostIsDetermined | crates/rk-cli/src/bbs_report.rs:3665-3683 | the contract of a delivery's cost leaves no figure open |

## Left out

- Rendering, terminal output and JSON output of all five parts: formatting only.
- The lock on the run directory: one collector at a time is assumed.
- `capture_interventions` and `progress_metrics`: reads of code that is not part of this model.
- Recovery files are a set of names; the source sorts them for display.
- A recovery fragment torn by a crash while it is saved: the source tests only that the file exists.
- The preview, the time stamp of the backup directory and its manifest file.
- The sleeps between polls and the truncation of a pid to 32 bits in the rollover.
- Overflow of 64-bit counters, offsets and durations, and rounding of floating-point costs and rates.
- MechanismGoal.ComputeReport: the lists of rejected claims, unresolved records, ambiguous assessments and unsupported author exits, which explain decisions the model makes, are not built.
- Capture counters, outcome classes, quality summary, reviewed annotations, frozen task scope and the spans inside the report: counts of single fields.
- DeliveryCost.CostOfDelivery: the provisional cost of completions, the process lifetime and the texts in `unknown_cost` are not modelled; completions contribute their launch row.
- Generations and segments are visited in any order; the source visits them sorted, which only orders its output.
- EvidenceIndex.BuildIndex: task spans only matter there as rejected ids, since a rejected id invalidates evidence.
