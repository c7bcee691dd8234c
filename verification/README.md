# Hephaestus: isolation sessions, retained state, backups, commits and sessions

A Dafny model of the parts of Hephaestus where a missed case does harm, with proofs
over every input, every failure and every interleaving. `dafny verify dfyconfig.toml`
checks everything.

* **Codex isolation sessions.** `SessionProtocol` is an automaton of what one run may
  visibly do. `SessionHost` is the host code as a class: every fallible call is
  answered by an oracle, and every visible action must be one that the automaton
  allows. `ReceiptSystem` lets any number of runs share one store of `.active.json`
  and `.quarantine.json`, in any interleaving and with a crash at any point.
* **Evidence.** `Evidence` states what an accepted result record says about the guest's
  processes and about time.
* **Retained state.** `PatternSearch` (chunked search with a carried tail),
  `RetainedState` (the budgeted recursive scan over an inductive directory tree) and
  `StateValidation` (worktree and profile on one budget).
* **Backups.** `Archive` (names and manifests), `BackupRestore` (two checkers and
  staging) and `RestoreWrites` (the write loop, and the round trip).
* **Publication.** One marker comment on a forge whose write answers can get lost.
* **Commits.** `CommitTitles` (the normalizer), `CommitGate` (the gate as a grammar, and
  on normalized titles) and `CommitPaths` (porcelain reader, selection, overlap check,
  bounded manifest).
* **Agent sessions.** `SessionNames` (names and identifiers) and `ModelFallback`
  (sticky capped models, and the sessions that calls run in).
* **Dirty workspaces.** `DirtyPermits`: permits that copied contexts cannot outlive.

Some promises are false of the code as it stands. For each there is a concrete input,
and the exact condition under which the promise holds:

* The normalizer's docstring promises titles that satisfy the strict gate. That holds
  exactly if the kept scope has no colon: `GateAcceptsNormalized`, `ColonInScopeRefused`.
* Backup writes names with a backslash, and the reader refuses them. A backup verifies
  exactly if no name has one: `BackupVerifies`, `BackslashNotVerified`.
* The write loop of restore is not atomic. It completes exactly if no target is in the
  way of another one or of the old files: `Repository.WriteAll`, `NestedMembersCrash`.
* A pattern with a NUL can span the name and the value of an attribute of the worktree
  root and pass. That cannot happen exactly if every such pattern that fits a listing
  holds one without a NUL: `SpanningPatternAccepted`, `PassingRootsExactly`.
* A removed receipt leaves nothing behind exactly if no failed population kept a profile
  that could not be discarded either: `StrayAfterRelease`, `RunAdmittedSession`.
* Session names run together where underscores allow it. For two repositories and issues
  they are injective in all agents and models exactly if the two are unambiguous:
  `NamesInjectiveExactly`, `RepoUnderscoreCollides`, `IssueUnderscoreCollides`.

## Model

| member | source | states |
|---|---|---|
| SessionProtocol.StepConsistent | hephaestus/agents/runtime.py:2854-3108 | every visible action keeps the run consistent: nothing is prepared before the receipt is held, and a run that clears it has no guest, authentication, unvalidated state or populated profile |
| SessionProtocol.DestroyCount | hephaestus/agents/runtime.py:2870-3008 | in every trace a guest arrives at most once, its destroy starts at most once and only after it arrived, and is proved only after it started |
| SessionProtocol.ExposureEnds | hephaestus/agents/runtime.py:2925-3085 | whole or partial authentication, unvalidated state and a populated profile are gone exactly when each was followed by its removal, validation or discard; a stray profile is left exactly if a failed population could not be discarded |
| SessionProtocol.DiskInOrder | hephaestus/agents/runtime.py:2913-3085 | in every trace a profile is populated and authentication issued while the guest lives, state validated, the rollout exported and the profile discarded after its proved end, and issue, validation and export need a populated profile |
| SessionProtocol.ExportComesLast | hephaestus/agents/runtime.py:3047-3085 | a rollout is exported only after proved destruction, removed authentication (whole or partial) and validated state, in every trace |
| SessionProtocol.ReleasedLeavesNothing | hephaestus/agents/runtime.py:2991-3108 | a run that removed its receipt never had a guest or proved its end, removed whole and partial authentication, validated state and discarded its profile; it leaves nothing at all exactly if no failed population kept its profile |
| ReceiptSystem.NextKeepsInvariant | hephaestus/agents/runtime.py:2678-2803 | every step of every run keeps the agreement between all runs and the two receipt files |
| ReceiptSystem.MutualExclusion | hephaestus/agents/runtime.py:2678-2737 | in every interleaving at most one run owns the receipt, it is the one recorded in `.active.json`, and only it can have a living guest |
| ReceiptSystem.PrepareStartsClean | hephaestus/agents/runtime.py:2678-2737 | when a run starts preparing there is no quarantine, it owns the receipt, and every other run has left no guest, authentication, unvalidated state or profile, except a profile whose failed population could not be discarded |
| ReceiptSystem.FreeStoreIsClean | hephaestus/agents/runtime.py:2740-2803 | with neither receipt in the store, no run has left a guest, authentication, unvalidated state or profile, except a profile whose failed population could not be discarded |
| ReceiptSystem.QuarantineIsFinal | hephaestus/agents/runtime.py:2762-2803 | once `.quarantine.json` exists no run is past the second look and none ever starts preparing, not even one that had looked before |
| ReceiptSystem.StoppedOwnerLocksStore | hephaestus/agents/runtime.py:2678-2803 | a run that stops while it owns the receipt keeps it, and no other run ever gets past creation |
| ReceiptSystem.UnlinkRemovesOwnReceipt | hephaestus/agents/runtime.py:2740-2803 | the unlinks go by name, and yet only ever remove the unlinking run's own receipt, whose identity check never fails; a clean end leaves the store empty, and a quarantined one only the quarantine |
| ReceiptSystem.LooksTell | hephaestus/agents/runtime.py:2690-2790 | in every reachable state a look finds exactly what is there, and an exclusive create succeeds exactly without a receipt |
| ReceiptSystem.ProjectionReplays | hephaestus/agents/runtime.py:2678-2803 | what each run did inside an interleaving is a trace of the protocol |
| ReceiptSystem.FirstLookIsNotEnough | hephaestus/agents/runtime.py:2690-2733 | an execution in which the first look and the exclusive create succeed although another run left exposed state in quarantine, so the second look is needed |
| SessionHost.ControlDeadline | hephaestus/agents/runtime.py:2051-2062 | the smaller of request deadline plus cleanup budget and now plus cleanup budget |
| SessionHost.Host.CreateReceipt | hephaestus/agents/runtime.py:2678-2737 | exactly when the receipt is held; otherwise the run has none, or its own stays |
| SessionHost.Host.ClearReceipt | hephaestus/agents/runtime.py:2740-2759 | success exactly if identity, unlink and the re-check succeed; the receipt is gone after the unlink even if the re-check fails |
| SessionHost.Host.QuarantineReceipt | hephaestus/agents/runtime.py:2762-2803 | the receipt is replaced exactly if every step up to the unlink succeeds, and stays otherwise |
| SessionHost.Host.DestroyPrepared | hephaestus/agents/runtime.py:2065-2094 | destroy starts once; its end is proved exactly if it returned nothing and its start, return and observation follow the call's end in order |
| SessionHost.Host.DestroyAfterLateInvoke | hephaestus/agents/runtime.py:2203-2251 | after an overrun the end is proved exactly if both calls ended, destroy returned nothing, and the clock readings are ordered |
| SessionHost.Host.Prepare | hephaestus/agents/runtime.py:2870-2895 | a guest is handed on exactly if it arrived in time; otherwise the answers of prepare, a late destroy and the clear decide exactly whether the receipt is removed or left |
| SessionHost.Host.EndPrepare | hephaestus/agents/runtime.py:2254-2298 | a prepare call that raised or came late always fails the session, no guest stays up, and exactly which answers remove the receipt |
| SessionHost.Host.SetUp | hephaestus/agents/runtime.py:2909-2942 | it succeeds, populates, bridges and gets stuck exactly on the answers stated for each; a stray profile is left exactly if population is reached, fails and cannot be discarded |
| SessionHost.Host.Invoke | hephaestus/agents/runtime.py:2940-2990 | exactly which answers make a result or the effort retry pending, and that both need a proved destroy |
| SessionHost.Host.Finally | hephaestus/agents/runtime.py:2991-3108 | whether the guest's end is proved and everything cleaned up decides exactly whether the receipt is removed, quarantined or left; a pending result survives exactly if everything was cleaned up and exported |
| SessionHost.Host.RunAdmittedSession | hephaestus/agents/runtime.py:2854-3108 | for every combination of failures and timeouts: the trace is one of the protocol, the receipt's fate is an exact function of the answers, destroy starts exactly once per guest, a removed receipt leaves no guest, authentication, unvalidated state or populated profile, and nothing at all exactly if no failed population kept its profile; a result or retry escapes exactly under the stated conditions and only after cleanup; no adapter wait outlasts the cleanup bound; the receipt is given up only if no guest came or the destroy call that the session used on it returned with its readings in order; what the session returns or raises is an exact function of the answers |
| SessionHost.GiveUpMeansEnded | hephaestus/agents/runtime.py:2065-3108 | over the answers alone: a removed or quarantined receipt means no guest, or a late, body or final destroy, whichever the session used, that returned in order |
| SessionHost.OutcomeExactly | hephaestus/agents/runtime.py:2940-3108 | exactly which answers make a session return a result, and which make it raise the retry signal |
| SessionHost.StrayAfterRelease | hephaestus/agents/runtime.py:3216-3222 | a new host whose population fails and cannot be discarded ends with its receipt removed and the profile left |
| Evidence.PairwiseIsGlobal | hephaestus/agents/codex_isolation.py:634-639 | comparing neighbours numbers and orders the whole list of inventories |
| Evidence.InventoriesExact | hephaestus/agents/codex_isolation.py:628-644 | exactly the orderly lists are accepted: complete, consecutive, in time order, and empty twice for a quiescence period |
| Evidence.AcceptanceExact | hephaestus/agents/codex_isolation.py:647-705 | exactly which result records are accepted |
| Evidence.CodesExactly | hephaestus/agents/codex_isolation.py:647-705 | which code a record gets that is refused for its identity, output, pipes or signals |
| Evidence.LateCodesExactly | hephaestus/agents/codex_isolation.py:698-705 | a late record is a timeout before its inventories are judged, and a reported error comes last |
| Evidence.DescendantsCode | hephaestus/agents/codex_isolation.py:628-644 | living descendants are reported exactly for inventories that are otherwise in order |
| Evidence.CleanupIsBounded | hephaestus/agents/codex_isolation.py:536-705 | after a term signal the pipes closed within term, kill and pipe grace; without a kill, within term and pipe grace |
| Evidence.AcceptedEvidence | hephaestus/agents/runtime.py:2301-2315 | accepted evidence inside the invoke window: pipes closed a quiescence period before both the return and the deadline |
| Evidence.WindowExactly | hephaestus/agents/runtime.py:2301-2315 | the window for the last two inventories, by name |
| PatternSearch.TailSuffices | hephaestus/agents/runtime.py:4362-4370 | an occurrence that is new in a longer prefix lies in the carried tail and the new chunk |
| PatternSearch.SearchInChunks | hephaestus/agents/runtime.py:4362-4370 | for every content and every way reads are cut, contamination is reported exactly if a pattern occurs in the whole content |
| PatternSearch.TaintedByNonempty | hephaestus/agents/runtime.py:4362-4370 | with nonempty patterns a file is tainted exactly if a pattern occurs in it |
| RetainedState.CleanIsAllOk | hephaestus/agents/runtime.py:4231-4391 | the recursive check accepts exactly the trees whose every entry, at every depth, is acceptable |
| RetainedState.EntryOkExactly | hephaestus/agents/runtime.py:4245-4391 | over the node's own fields: an entry is acceptable exactly if its path is within bounds, its name holds no pattern, and it is recorded with its own kind, stamp and attributes or holds no pattern; links and devices only as recorded |
| RetainedState.PathLengthGrows | hephaestus/agents/runtime.py:4250-4262 | a path is as long as its names and one separator between any two |
| RetainedState.ScanEntry | hephaestus/agents/runtime.py:4250-4391 | one entry is kept as it is exactly if it and all below are clean and the shared budget covers it |
| RetainedState.ScanDirectory | hephaestus/agents/runtime.py:4231-4391 | a silent scan means a clean tree within budget, and conversely; the budget grows by exactly the tree's cost; survivors of a removing scan are clean |
| StateValidation.Stripped | hephaestus/agents/runtime.py:4014-4051 | no attribute that is left holds a pattern, and nothing is removed exactly if none did |
| StateValidation.ScanRoot | hephaestus/agents/runtime.py:4394-4468 | a root passes exactly if it is owned, sealed where required, clean in attributes and entries, and within budget |
| StateValidation.ScansDecide | hephaestus/agents/runtime.py:4394-4468 | two scans on one budget decide the property of the whole state |
| StateValidation.RootCleanExactly | hephaestus/agents/runtime.py:4430-4448 | a root is clean exactly if it is recorded with its own stamp and canonical attributes, or its attributes hold no pattern |
| StateValidation.CanonicalWritten | hephaestus/agents/runtime.py:4003-4011 | the canonical text is each name and value in order, each followed by a NUL |
| StateValidation.AcceptedMeans | hephaestus/agents/runtime.py:4394-4468 | in an accepted state every name is free of patterns and every node and both roots are as recorded or hold none |
| StateValidation.TreeHolds | hephaestus/agents/runtime.py:4263-4391 | in an accepted tree a file that is not recorded with its own kind, stamp and attributes holds no nonempty pattern, and a link is recorded with its own payload |
| StateValidation.Validate | hephaestus/agents/runtime.py:4394-4468 | returns normally exactly if, in worktree and profile, no name holds a pattern, nothing that differs from the baseline does, no changed link survives, and the budget holds; and then no entry and no root attribute was deleted in either; every node and both roots are then as recorded or hold no pattern |
| StateValidation.ChecksAgreeExactly | hephaestus/agents/runtime.py:4003-4051 | for patterns of at least two bytes, the worktree's check of single root attributes and the profile's check of their canonical text agree on all attribute lists a listing can return exactly if every pattern with a NUL that fits a listing holds one without |
| StateValidation.PassingRootsExactly | hephaestus/agents/runtime.py:3972-4468 | a changed worktree root that validation accepts never holds a pattern in its canonical attributes, exactly for the same patterns |
| StateValidation.SpanningPatternAccepted | hephaestus/agents/runtime.py:3871-4051 | with the patterns of an authentication object whose token holds a NUL, validation accepts a changed root whose canonical attributes hold that token |
| Archive.CanonicalName | scripts/backup_state.py:173-191 | an accepted name has no empty, dot or dot-dot component and no separator inside one |
| Archive.CanonicalExactly | scripts/backup_state.py:173-191 | exactly which names are safe, and that the path is the name's parts without empty ones and dots |
| Archive.ComponentsKept | scripts/backup_state.py:185-191 | parts are kept in order, one by one, without empty ones and dots |
| Archive.WrittenName | scripts/backup_state.py:173-191 | reading a written path gives it back if it has no backslash, and nothing if it has one |
| Archive.ItemExactly | scripts/backup_state.py:285-302 | a member counts under a path exactly if that is its safe name, it is a regular file, and it is the manifest or in the inventory |
| Archive.MetaExactly | scripts/backup_state.py:242-258 | metadata is accepted exactly if it is an object of a 64-digit hexadecimal digest and a size, in either order |
| Archive.EntriesExactly | scripts/backup_state.py:235-239 | a manifest is accepted exactly if it is an object of members alone, with unique names |
| Archive.RecordExactly | scripts/backup_state.py:304-309 | an entry counts under a path exactly if that is its safe name in the inventory and its metadata is in order |
| Archive.ManifestExactly | scripts/backup_state.py:214-259 | the records read are those of the manifest's entries, in order |
| BackupRestore.IndexPaths | scripts/backup_state.py:204-211 | a dictionary is filled exactly if every path is present and none repeats |
| BackupRestore.ReadArchive | scripts/backup_state.py:214-314 | binds manifest and members exactly if names are safe, distinct and the same on both sides |
| BackupRestore.Verify | scripts/backup_state.py:326-360 | exit code 0 exactly for valid archives; and then every member is there with the recorded size and digest |
| BackupRestore.IntactExactly | scripts/backup_state.py:346-352 | payloads are in order exactly if each has its data, both sizes and the digest that its record says |
| BackupRestore.Stage | scripts/backup_state.py:363-429 | staging succeeds exactly if restore would reach its write loop, and stages each payload at its own place inside the inventory |
| BackupRestore.ReachesWritesExactly | scripts/backup_state.py:380-423 | the write loop is reached exactly if the inventory is empty or force is given, the archive is bound and intact, and every record leads to its own place inside the inventory |
| BackupRestore.VerifyAgreesWithRestore | scripts/backup_state.py:326-429 | verify passes exactly when a forced restore into a repository without links reaches its write loop |
| RestoreWrites.NextWrite | scripts/backup_state.py:432-434 | in the middle of the loop, the next write succeeds exactly if the targets so far and this one are free of conflicts |
| RestoreWrites.NoConflictExactly | scripts/backup_state.py:432-434 | targets are free of conflicts exactly if no file is where a directory must be, no directory where a file must be, and no target is above another |
| RestoreWrites.Repository.WriteAll | scripts/backup_state.py:432-434 | the loop completes exactly if no target is in the way, and then the result is the old files overlaid with the staged ones; if it stops, exactly the files before the first conflict are written |
| RestoreWrites.Repository.Restore | scripts/backup_state.py:363-434 | a refusal leaves everything untouched; otherwise the write loop ran, a completed restore is the overlay, and a crashed one the overlay up to the first conflict; nothing is written unless every member is intact and placed |
| RestoreWrites.Backup | scripts/backup_state.py:128-170 | the archive holds every file in order and a manifest of exactly these files |
| RestoreWrites.BackupVerifies | scripts/backup_state.py:128-170 | verify accepts a backup exactly if no archived name holds a backslash |
| RestoreWrites.BackslashNotVerified | scripts/backup_state.py:173-191 | the backup of one file named `a\b` is refused by its own reader |
| RestoreWrites.TamperedIsRefused | scripts/backup_state.py:326-429 | a backup with other bytes, of another digest, in any one file fails verify, and restore refuses it with the files untouched, forced or not |
| RestoreWrites.BackupThenRestore | scripts/backup_state.py:128-434 | a backup verifies, and restoring it into an empty repository completes exactly if no file is nested in another, rebuilding exactly the same paths and bytes |
| RestoreWrites.NestedMembersCrash | scripts/backup_state.py:430-434 | an archive of `x` and `x/y` passes every check, and its restore crashes with `x` written and `x/y` not |
| Publication.ListComments | scripts/publish_pi_package_acceptance.py:164-175 | pagination returns the whole listing, for every length |
| Publication.AttemptKeepsSane | scripts/publish_pi_package_acceptance.py:232-276 | one attempt leaves at most one marker comment, whatever answers are lost |
| Publication.ForeignUntouched | scripts/publish_pi_package_acceptance.py:232-276 | a comment of another owner is never changed or moved |
| Publication.Forge.Reconcile | scripts/publish_pi_package_acceptance.py:218-229 | after a lost answer, success means exactly one exact comment of the actor |
| Publication.Forge.Publish | scripts/publish_pi_package_acceptance.py:232-276 | what one attempt does to the thread, exactly when it returns an address, and that the exact comment is then there; an address means that everything was checked and the comment was read back, or a lost write found again, and conversely these return it |
| Publication.SucceedsExactly | scripts/publish_pi_package_acceptance.py:232-276 | over the answers alone: exactly when an attempt returns an address |
| Publication.EffectExactly | scripts/publish_pi_package_acceptance.py:232-270 | exactly what an attempt writes: nothing, a new comment, or a new body in the one marker comment of the actor |
| Publication.MarkersExactly | scripts/publish_pi_package_acceptance.py:178-183 | the marker comments are the comments that contain the marker, in order |
| Publication.PreparedExactly | scripts/publish_pi_package_acceptance.py:96-144 | what must be in order before anything is listed, and that the body starts with the marker line |
| Publication.RepeatWritesNothing | scripts/publish_pi_package_acceptance.py:232-276 | a repeat after success writes nothing and can only return the same address |
| Publication.NeverTwoMarkers | scripts/publish_pi_package_acceptance.py:218-276 | over every history of attempts with lost answers there is never more than one marker comment |
| Publication.LateWriteDuplicates | scripts/publish_pi_package_acceptance.py:218-276 | if a lost write could still take effect after a second attempt succeeded, two markers would result |
| CommitTitles.OneLineKeepsTrim | hephaestus/automation/commit_policy.py:71 | joining the words of a text with single blanks changes only what is not already so |
| CommitTitles.MatchSound | hephaestus/automation/commit_policy.py:24-26 | what the pattern matches is written as its parts say |
| CommitTitles.MatchComplete | hephaestus/automation/commit_policy.py:24-26 | every text so written is matched, with exactly those parts |
| CommitTitles.NormalPartsAreNormal | hephaestus/automation/commit_policy.py:52-82 | a normalized title has an allowed type, a scope that is not blank, a nonempty description and single blanks |
| CommitTitles.Idempotent | hephaestus/automation/commit_policy.py:52-82 | normalizing again, with any default, changes nothing |
| CommitTitles.NormalIsKept | hephaestus/automation/commit_policy.py:52-82 | a title with an allowed type, proper scope and description is kept as it is, bang included |
| CommitTitles.OtherTypeIsReplaced | hephaestus/automation/commit_policy.py:76-82 | of a title with another type only the type is replaced, by the default |
| CommitTitles.PlainTitleIsDescription | hephaestus/automation/commit_policy.py:70-74 | a title without a colon becomes the description, on one line |
| CommitTitles.WordsExactly | hephaestus/automation/commit_policy.py:71 | the words of a title, one by one |
| CommitTitles.IsLowerExactly | hephaestus/automation/commit_policy.py:24-26 | the letters of a type |
| CommitTitles.WrittenMeans | hephaestus/automation/commit_policy.py:72-82 | exactly what becomes of a title's type, scope, bang and description, for every line written as the pattern says |
| CommitTitles.UnwrittenMeans | hephaestus/automation/commit_policy.py:72-74 | every other line, with or without a colon, becomes the description |
| CommitGate.PrefixExact | scripts/check_conventional_commit.py:56-69 | the judgement on the text before the colon accepts exactly a grammar of type, scope and bang |
| CommitGate.GateExact | scripts/check_conventional_commit.py:30-70 | the strict gate accepts exactly the conventional subjects that are not git's own; the lenient one accepts git's own as well |
| CommitGate.MachineryExactly | scripts/check_conventional_commit.py:27 | which subjects are git's own |
| CommitGate.DropNewlinesExactly | scripts/check_conventional_commit.py:44 | newlines at the end do not count, and nothing else is dropped |
| CommitGate.GateAcceptsNormalized | scripts/check_conventional_commit.py:30-70 | the strict gate accepts a normalized title exactly if its kept scope has no colon |
| CommitGate.ColonInScopeRefused | scripts/check_conventional_commit.py:53-69 | `feat(a:b): c` is its own normalized form, and the gate refuses it |
| CommitPaths.ParseInvertsPrint | hephaestus/automation/commit_paths.py:74-98 | reading inverts printing, on every list of entries |
| CommitPaths.AcceptsExactlyPrinted | hephaestus/automation/commit_paths.py:74-98 | an output is accepted exactly if it is the printed form of some entries |
| CommitPaths.ParsePorcelainStatus | hephaestus/automation/commit_paths.py:74-98 | the reader keeps status and target of each printed entry and drops only rename and copy sources |
| CommitPaths.KnownStatusExactly | hephaestus/automation/commit_paths.py:27-32 | the status pairs one by one, and which of them have a source record |
| CommitPaths.SelectCommitPaths | hephaestus/automation/commit_paths.py:110-131 | fails exactly if some entry is unmerged; otherwise the two lists are the admitted entries in order |
| CommitPaths.SelectionPartitions | hephaestus/automation/commit_paths.py:110-131 | every admitted entry lands in exactly one of the two lists |
| CommitPaths.SelectionExact | hephaestus/automation/commit_paths.py:101-131 | a path is selected exactly if an entry has it, the allowlist admits it and no component is secret; deletions are updates |
| CommitPaths.SelectionGrows | hephaestus/automation/commit_paths.py:110-131 | entry by entry: a path is appended to one list if the allowlist has it and no component is secret, to the updates exactly if it is a deletion |
| CommitPaths.SecretExactly | hephaestus/automation/commit_paths.py:13-26 | exactly which paths are secret |
| CommitPaths.LookupsFindDragged | hephaestus/automation/commit_paths.py:139-156 | the set lookups find exactly the filtered paths that a selected path would stage with it |
| CommitPaths.FilteredExactly | hephaestus/automation/commit_paths.py:139-141 | filtered are exactly the paths with a status that are in neither list |
| CommitPaths.RejectFilteredPathShapeChanges | hephaestus/automation/commit_paths.py:134-157 | refuses exactly if an added path is above a filtered one, or a filtered one above a selected one |
| CommitPaths.OverlapWithoutAllowlist | hephaestus/automation/pipeline/worker_pool.py:452-458 | without an allowlist the only overlap is an added path above a secret one |
| CommitPaths.IsBounded | hephaestus/automation/commit_paths.py:41-71 | true exactly for nonempty lists of distinct canonical paths within both limits |
| CommitPaths.CanonicalExactly | hephaestus/automation/commit_paths.py:58-68 | canonical are exactly the joins of components that are neither empty nor dots, and the single dot |
| CommitPaths.BytesExactly | hephaestus/automation/commit_paths.py:57-70 | the manifest's bytes are each path's and a terminator |
| CommitPaths.InspectCandidate | hephaestus/automation/pipeline/worker_pool.py:420-466 | for every printed status, the inspection succeeds exactly if the entries are publishable, with exactly their selection |
| SessionNames.RoundsAreDistinct | hephaestus/automation/agent_config.py:230-274 | every review round has a valid agent, and different rounds or bases have different ones |
| SessionNames.ValidAgentExactly | hephaestus/automation/agent_config.py:260-274 | exactly which agents are valid: the fixed ones, the rounds of a reviewer, and its cycles |
| SessionNames.RoundsHaveOwnNames | hephaestus/automation/agent_config.py:230-337 | two rounds of one review never share a session name |
| SessionNames.TokenInjective | hephaestus/automation/agent_config.py:277-292 | equal model tokens mean equal stripped models, if the digest does not collide on them |
| SessionNames.NameReads | hephaestus/automation/agent_config.py:277-337 | how a name reads, part by part, and what of the issue and the model does not count |
| SessionNames.NamelessExactly | hephaestus/automation/agent_config.py:320-333 | exactly which keys have no name, and why |
| SessionNames.UuidReads | hephaestus/automation/agent_config.py:365-388 | an identifier is made of the name and the digest of the checkout, and exists exactly with the name |
| SessionNames.NamesAreInjective | hephaestus/automation/agent_config.py:295-337 | two session names agree exactly if repository, issue, agent and stripped model do, for unambiguous repositories and issues |
| SessionNames.NamesInjectiveExactly | hephaestus/automation/agent_config.py:295-337 | for two repositories and issues, names are injective in all agents and models exactly if equal stems come from equal parts and neither stem is the other with a valid agent, and perhaps safe text, behind it |
| SessionNames.SameIssueUnambiguous | hephaestus/automation/agent_config.py:295-337 | one repository and issue are never ambiguous, whatever they hold |
| SessionNames.PlainIssuesUnambiguous | hephaestus/automation/agent_config.py:295-337 | issues without an underscore are unambiguous in one repository, or in two without one |
| SessionNames.UuidsAreInjective | hephaestus/automation/agent_config.py:365-388 | for unambiguous repositories and issues, a session identifier belongs to one such key in one checkout |
| SessionNames.RepoUnderscoreCollides | hephaestus/automation/agent_config.py:326-337 | a repository `x_y` with issue `z` has the name of `x` with issue `y_z` |
| SessionNames.IssueUnderscoreCollides | hephaestus/automation/agent_config.py:326-337 | within one repository, an issue that ends in an agent's name collides with that agent and a model |
| ModelFallback.ReferenceIsStripped | hephaestus/agents/model_selection.py:36-47 | a parsed reference and its model carry no white space around them |
| ModelFallback.ControlExactly | hephaestus/agents/model_selection.py:38-41 | which characters make a reference unreadable |
| ModelFallback.PlainReads | hephaestus/agents/model_selection.py:36-47 | a reference without a colon is its own model |
| ModelFallback.EffortReads | hephaestus/agents/model_selection.py:36-47 | what follows the last colon is an effort if it is not blank, and the rest is the model |
| ModelFallback.ColonReads | hephaestus/agents/model_selection.py:36-47 | a colon at the end belongs to the model |
| ModelFallback.Client.InvokeOnce | hephaestus/automation/claude_invoke.py:290-385 | what one attempt starts and returns, with its create or resume choice and lifecycle refusals, over the request and the answer it meets |
| ModelFallback.Client.Invoke | hephaestus/automation/claude_invoke.py:239-287 | the outcome and the new state of one call, with its one retry on the fallback, over the request and the answers it meets |
| ModelFallback.LifecycleExactly | hephaestus/automation/claude_invoke.py:239-240 | each lifecycle has two spellings |
| ModelFallback.LifecycleRespected | hephaestus/automation/claude_invoke.py:326-330 | a call that requires a resume only resumes, and one that requires a new session only creates |
| ModelFallback.RunRespectsLifecycles | hephaestus/automation/claude_invoke.py:326-330 | and so it is for every call of every run |
| ModelFallback.CallServed | hephaestus/automation/claude_invoke.py:239-334 | a call with a named key whose lifecycle is met starts the program, creating exactly without a transcript, and gives back what a successful program printed |
| ModelFallback.CallAttempts | hephaestus/automation/claude_invoke.py:239-287 | a call makes one attempt, and one more only with a newly recorded model; a strict call makes one and records nothing |
| ModelFallback.SecondTryIsFallback | hephaestus/automation/claude_invoke.py:266-287 | no call tries a model twice: the second attempt is the fallback, and the first model is then recorded |
| ModelFallback.RunAttempts | hephaestus/automation/claude_invoke.py:120-146 | over every run, attempts equal calls plus the growth of the capped set, and no model is recorded twice |
| ModelFallback.Client.InvokeAll | hephaestus/automation/claude_invoke.py:239-287 | any sequence of calls leads to the state that the account and the sessions are stated of |
| ModelFallback.CappedModelSkipped | hephaestus/automation/claude_invoke.py:266-287 | a capped model is tried again only in strict calls or as the fallback itself |
| ModelFallback.ReturnedSession | hephaestus/automation/claude_invoke.py:239-334 | a returned identifier is that of the last start, which ran the last model tried |
| ModelFallback.OneModelPerSession | hephaestus/automation/claude_invoke.py:310-334 | in every run, two starts on one session identifier with unambiguous repositories and issues run the same model for the same key |
| ModelFallback.CreatedOnce | hephaestus/automation/claude_invoke.py:310-334 | in every run that sees its own transcripts, the first start on an identifier creates the session and every later one resumes it |
| DirtyPermits.Permits.Validate | hephaestus/agents/workspace.py:433-440 | a version-2 binding passes exactly with an active record of this permit and this binding in the context |
| DirtyPermits.Permits.PerformAll | hephaestus/agents/workspace.py:380-404 | any sequence of blocks and context copies leads to the state its history describes |
| DirtyPermits.Permits.ExitBlock | hephaestus/agents/workspace.py:394-404 | ending a block revokes its record, resets the variable in its own context, and no context passes the permit any more |
| DirtyPermits.PassesOnlyWhileOpen | hephaestus/agents/workspace.py:380-404 | in every history and context, the check passes only while the issuing block is open, for its own binding |
| DirtyPermits.RevokedForGood | hephaestus/agents/workspace.py:380-404 | a permit whose block ended passes in no context ever again |
| DirtyPermits.PassesExactly | hephaestus/agents/workspace.py:394-440 | in a nested history, a context passes exactly the open blocks of its own or of the contexts it was copied from |
| DirtyPermits.PossibleExactly | hephaestus/agents/workspace.py:394-404 | a history goes on exactly with a step in a context that is there, and with the end of an open block only |
| DirtyPermits.NestedExactly | hephaestus/agents/workspace.py:394-404 | it stays nested exactly if a block ends in its own context with no later block of that context open |

## Left out

- The text of error codes: seven are told apart, of which one stands for all others.
- Threads, processes, signals and `Popen` polling: an adapter call ends in time, late or never, as the oracle says.
- Session-authority and profile-policy validation and verifying the executable: each is one step that succeeds or fails; populating a profile is one step that succeeds, is undone, or leaves what it wrote.
- Manual removal of `.quarantine.json` by cleanup tools.
- Descriptors, modes, owners and the system calls of the scan: an entry has an opaque stamp, and an input/output error can only turn acceptance into refusal.
- The bound of 64 KiB on listed attributes, other than where patterns and root attributes are compared; exceeding it only turns acceptance into refusal.
- The stamp of a directory whose contaminated entries were deleted: survivors keep the stamp that was scanned.
- SHA-256, UUIDv5, JSON and tar encodings: functions that are arguments, with the assumptions each statement names.
- Symbolic links during restore: resolution is an arbitrary function; the write loop itself follows no links.
- Malformed answers of the forge, and two publishers whose attempts overlap: an attempt runs from its listing to its end before the next one.
- The type-only title normalizer, and how the gate gets its subjects from a file or standard input.
- The allowlist as anything but a set, and log messages of the selection.
- The command line, prompt and environment of an invocation, and the search for a transcript in registered worktrees: an attempt is told whether one exists, and `CreatedOnce` names what it supposes of that.
- Calls from several threads at once: the registry of capped models is updated by one call at a time.
- The checks of a workspace binding after the permit: shape, revision and cleanliness.
- Packaging, provisioning, execution policy tables, statistics, prompts and argument parsers.
