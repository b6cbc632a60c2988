# Keyclasp's crash-consistent vault in Dafny

Keyclasp keeps secrets in a few durable stores: the vault files, a key bundle, SQLite rows and metadata, a policy
document with its anchors, and journals. Operations that touch more than one of them are small transaction protocols.
This project models managed restore, policy commits, custody transitions with their cleanup, bundle transitions and
the creation of a vault. It proves that each is all-or-nothing wherever the process dies, including inside its own
recovery, except at points that it names exactly: two protocols can get stuck. It also proves that whole runs of the
command line, cut anywhere, refine a plain map of records under coherent rules, and that the streaming redactor, the
lock protocol, the hardware-key life cycle and the encodings do what they are for.

`dafny verify dfyconfig.toml` checks everything.

## How the model is built

- **Crashes.** A process performs primitives: one file-system call, one database transaction. `fuel` is the number
  it still performs before it dies; `faults` says how many primitives succeed before each of its exceptions. Both
  are arbitrary, in the first process and in every recovery, so a contract about every run is a contract about every
  crash point. A performed primitive is durable. An atomic file replacement is one visible step, and an exception
  may come before or after it. A database transaction is one step. All protocols share `Crashes.Fuse`. `Reaches(n)`
  and `Calm(n)` say that the first, or the next, `n` primitives succeed; contracts that name them say exactly when an
  operation succeeds or takes effect.
- **Managed restore** (`VaultFiles`, `Rollback`, `RestoreJournal`, `RestoreWork`, `Restore`, `ManagedRestore`). The
  journal, its key (absent, empty or whole) and temporary name, the directories and all files are one `Disk`. Old and
  new contents may be byte-identical. Recovery judges by observed hashes, never by completion flags. A disk is
  `Blocked` when its staging directory holds an entry that no cleanup list names, or its journal key is empty.
- **Redactor** (`RedactorSpec`, `Redactor`, `GuardedRun`). `RedactorSpec` relates one scan step to the whole stream;
  `Redactor` has the loops and the carry updated in place; `GuardedRun` has the two output streams.
- **Policy** (`PolicyRules`, `PolicyCommit`). Rules are evaluated by the one-pass loop and by an order-free
  definition. The commit protocol runs over document, anchor, database anchor and row classes.
- **Vault** (`Records`, `VaultState`, `Vault`, `CustodyTransition`, `KeyBundle`, `Custody`, `Sanitization`,
  `Refinement`, `Coherence`). Encryption is symbolic: `Sealed(key, binding, value)` opens only under the same key and
  binding. Hashes are injective. Random keys, record ids and salts are parameters.
- **Whole runs** (`Initialization`, `CrashRuns`) compose the creation of a vault, policy commits, custody cleanups,
  bundle transitions and row operations, each with its own cuts.
- **Locks** (`LifecycleLock`) are a state machine over any number of processes and all seven kinds of pending work.
- **Hardware key** (`OwnerFile`, `HardwareKey`, `RecordCodec`) and **encodings** (`Bytes`, `AssociatedData`,
  `OperatorPrompt`).

## Where a promise needs a condition

- The rollback precheck accepts states on which the reverse loop then throws. The loop completes if and only if, for
  every name whose old and new contents agree, exactly two copies survive (`Rollback.UndoCompletesIff`;
  `Rollback.PrecheckIsNotSufficient` has one copy and three copies as inputs). Every reachable state conserves them.
- An interrupted restore can be impossible to finish. A cut inside `writeActiveKeyBundle` (`src/vault.ts:391-402`),
  which a portable restore calls on the staging directory (`src/vault.ts:517`), leaves a temporary file there; a cut
  while the classification copy leaves WAL mode (`src/vault-files.ts:138`) leaves its rollback journal. No cleanup
  list names either (`src/recovery.ts:535-582`), so `removeDirectoryIfEmpty` throws in every recovery
  (`src/recovery.ts:524-529`). A cut between creating and writing the transaction key (`src/recovery.ts:211`) leaves an
  empty key, which every recovery refuses (`src/recovery.ts:659`). `ManagedRestore.InterruptedConversionBlocks` is the
  first of these disks, `ManagedRestore.RetryBlocked` shows that recovery then fails for good, and
  `ManagedRestore.RecoverAcrossCuts` that it finishes if and only if the disk is not blocked. By the cut itself: a
  restore that is killed can be finished unless it was killed behind its first primitive, behind one of two of the
  classification (`Request.SplitsQuiesce`), or behind one of the conversion (`Request.SplitsBundle`), as
  `ManagedRestore.RestoreAcrossCrashes` states. The live files are those of the decided outcome either way.
- `init` writes the key bundle before the database and keeps no journal. Cut between the two (`src/vault.ts:1197-1210`)
  it leaves a directory that every later `init` refuses (`src/vault.ts:1182-1188`) and that nothing else opens
  (`src/vault.ts:2075-2078`). `Initialization.InitializeAcrossCrashes` has the exact condition, and shows that every
  other cut leaves nothing or a vault that the next start completes.
- A policy operation that reports failure has changed nothing that recovery does not undo, except that it has changed
  everything when the exception is the one right behind the database commit (`src/policy.ts:350-354`,
  `src/policy.ts:566-573`); `PolicyCommit.PolicyProcess.CommitPolicyDocument` has the exact condition.
- Redacted output depends on chunking. It is independent of it if and only if no proper prefix of a value contains a
  complete value that starts behind its first character (`RedactorSpec.ChunkIndependentIff`). Detection never depends
  on it.
- `docs/plans/2026-08-23-001-software-beta-and-optional-hardware-mode-plan.md:185` says that a rename proceeds only
  when every moved secret keeps its authorization. The code checks only the names a listing shows (`src/cli.ts:375-385`,
  `src/vault.ts:2586`), so coherence is proved for listed records, `Coherence.HiddenRecordLosesCoherence` is an input
  on which a hidden one loses it, and `Coherence.RenameKeepsCoherentIff` is the exact condition for all.
- The preview of a default change announces what will happen if and only if the change is not skipped or every record
  already has the class the rules ask for (`PolicyRules.PreviewIsExactIff`).
- The record encoder has no bound on the whole record, the decoder has. Decoding inverts encoding exactly within the
  decoder's bounds (`RecordCodec.DecodeInvertsEncodeIff`).
- "A committed restore is never rolled back" holds of recovery. The handler inside the restore itself rolls back by
  whatever journal is durable (`src/recovery.ts:1285-1289`), so `ManagedRestore.RestoreAcrossCrashes` decides by the
  journals that became durable, and by the committed one alone when there are only crashes.

## Model

| member | source | states |
|---|---|---|
| Rollback.DecideIgnoresCompletion | src/vault-files.ts:277-357 | what reconciling an operation does never depends on its completion flag |
| VaultFiles.DecisionHandles | src/vault-files.ts:277-357 | the same of the decision by itself, for whatever changes a file or leaves it |
| Rollback.PublishStep | src/vault-files.ts:277-357 | in the state after `i` renames the next one is possible and leads to the state after `i + 1` |
| Rollback.UndoStep | src/vault-files.ts:277-357 | undoing the last rename in effect leads back exactly one state |
| Rollback.SkipStep | src/vault-files.ts:324-335 | undoing a rename that is not in effect changes nothing, also when old and new contents are byte-identical |
| Rollback.PrefixStatesAreReconciliable | src/vault-files.ts:250-275 | the precheck accepts every state that forward steps, crashes and partial rollbacks can leave |
| Rollback.UndoCompletesIff | src/recovery.ts:618-631 | on any disk the precheck accepts, the reverse loop completes if and only if names with equal old and new hash have exactly two copies; where it completes, every managed name is live with its old hash, or gone if it had none |
| Rollback.PrecheckIsNotSufficient | src/vault-files.ts:250-275 | one surviving copy, or three, passes the precheck and makes the loop throw |
| Rollback.UndoFromPrefix | src/recovery.ts:618-631 | from every reachable state the reverse loop never throws and ends with every live name at its old hash |
| RestoreJournal.StagingCleanupCovers | src/recovery.ts:535-582 | the staging cleanup list names every file a staging phase can have left, but the key-bundle temporary and the rollback journal of the classification copy |
| RestoreJournal.RollbackCleanupCovers | src/recovery.ts:535-582 | the rollback cleanup list names everything that is not the old inventory |
| RestoreJournal.CommittedCleanupCovers | src/recovery.ts:535-582 | the committed cleanup list names everything that is not the new set or preserved evidence |
| RestoreWork.CleanupStep | src/recovery.ts:584-609 | a cleanup operation is never refused, keeps the state cleanable, and every unlink decreases what remains |
| RestoreWork.WorkIsBounded | src/recovery.ts:584-677 | the termination measure of any interrupted state is bounded by the size of the plan |
| Restore.RestoreProcess.CreateKey | src/recovery.ts:208-215 | the key is left empty exactly by a cut between its creation and its content |
| Restore.RestoreProcess.PersistJournal | src/recovery.ts:446-500 | a journal write is an atomic replace: the durable journal is the old or the new one, and a whole key precedes it; an empty key stops every write |
| Restore.RestoreProcess.Reconcile | src/vault-files.ts:277-357 | on any disk and in both directions: a rename is made only from a file with its hash to a path without a file; it is left alone only where that has happened, or, backwards, where the destination holds what publication would replace; everywhere else it throws and the files stay. A hash-checked unlink removes only its own content, backwards none, and no rename loses any content |
| Restore.RestoreProcess.AssertRollbackOperationsReconciliable | src/vault-files.ts:250-275 | the precheck loop accepts if and only if every operation is a rename with its hash at one of its two paths while the other is empty or holds what the journal recorded for it |
| Restore.RestoreProcess.FinishCleanupJournal | src/recovery.ts:584-609 | a cleanup keeps the outcome, only does decreasing work, ends with journal and key gone, and throws of itself only on a blocked disk |
| Restore.RestoreProcess.BeginCleanupJournal | src/recovery.ts:611-616 | entering a cleanup phase keeps the outcome decided before it |
| Restore.RestoreProcess.RollbackJournal | src/recovery.ts:618-631 | a rollback ends at the old inventory and throws of itself only on a blocked disk |
| Restore.RestoreProcess.FinishCommittedJournal | src/recovery.ts:633-642 | finishing a committed journal ends at the new set |
| Restore.RestoreProcess.RecoverInterruptedManagedRestore | src/recovery.ts:644-677 | recovery keeps the outcome at every cut, only does decreasing work, takes a bounded number of steps, throws of itself only on a blocked disk, neither adds nor removes what blocks one, and otherwise leaves a finished vault |
| ManagedRestore.StageFiles | src/recovery.ts:1185-1200 | staging copies every source file, touches nothing live, and may be cut anywhere |
| ManagedRestore.QuiesceCopy | src/vault-files.ts:126-143 | the classification copy leaves WAL mode under a rollback journal that is left behind exactly by a cut between its creation and its removal |
| ManagedRestore.ConvertPortable | src/recovery.ts:1201-1227 | the portable conversion replaces staged files only, and leaves an unlisted entry exactly when it is cut at the rename of the key bundle |
| ManagedRestore.WritePortable | src/vault.ts:391-402 | the key bundle is replaced through a temporary file, which exactly a cut in between leaves, by death or exception |
| ManagedRestore.Publish | src/recovery.ts:1229-1266 | the publish loop makes every preserve and publish rename, each once: as many mutations as operations |
| ManagedRestore.Commit | src/recovery.ts:1267-1283 | after all renames the committed journal makes the new set the outcome |
| ManagedRestore.AbandonRestore | src/recovery.ts:1285-1302 | the in-process handler ends at the old inventory, whatever journal was durable; it takes a bounded number of steps and fails only by a further exception or on an unlisted staging entry |
| ManagedRestore.RestoreManagedBackup | src/recovery.ts:1142-1314 | a restore that returns without an exception has the new set live; undisturbed, it commits, warns of nothing and leaves nothing behind; after a single exception everything is put back, unless an unlisted entry is staged, and it says by the cut when that is |
| ManagedRestore.SplitsPossibleIff | src/recovery.ts:1156-1227 | some cut of a restore leaves an unlisted entry if and only if it converts a key bundle or takes a copy out of WAL mode |
| ManagedRestore.BlockedKeepsLive | src/recovery.ts:524-529 | a blocked disk has the live files of its outcome, and is not a finished one |
| ManagedRestore.InterruptedConversionBlocks | src/vault.ts:391-402 | from wherever staging stands, the temporary file of the bundle write blocks recovery |
| ManagedRestore.RetryBlocked | src/recovery.ts:644-677 | on a blocked disk every recovery fails, however many there are, and with enough fuel by throwing |
| ManagedRestore.RecoverAcrossCuts | src/recovery.ts:584-677 | recoveries cut anywhere, then one complete one: finished if and only if the disk was not blocked, live files at the outcome, and no more mutations in all of them together than the bound of the plan |
| ManagedRestore.LiveFilesAre | src/recovery.ts:1156-1283 | a live name holds its old content, or the converted or else the original backup file; unrelated names are untouched |
| ManagedRestore.RestoreAcrossCrashes | src/recovery.ts:1142-1314 | a restore cut anywhere, recoveries cut anywhere, then one complete recovery: name by name exactly the old inventory, or exactly the backup with its converted files, new iff the committed journal became durable and no rollback journal did; nothing else is left, but the old files of a damaged vault behind a commit, iff neither unlisted entry is staged and the key is not empty, and, when there are only crashes, iff the restore was not killed at one of the named points |
| RedactorSpec.FirstMatchIs | src/run.ts:257-267 | a match is found if and only if a value occurs, at the leftmost occurrence |
| RedactorSpec.CarryIsLongest | src/run.ts:269-311 | the carry is always the longest suffix of everything read that is a proper prefix of a value, shorter than the longest value |
| RedactorSpec.EndNeverMatches | src/run.ts:292-301 | the match branch of `end` is never taken |
| RedactorSpec.LeakReportedIff | src/run.ts:269-303 | for every chunking a leak is reported if and only if a value occurs in the concatenation |
| RedactorSpec.OutputIsSafe | src/run.ts:269-303 | without a leak the output is the input; with one it is a stream prefix without a complete value, then the marker |
| RedactorSpec.ChunkIndependentIff | src/run.ts:269-303 | the total output equals the one-shot scan for every chunking if and only if no cut value hides a complete one behind its start |
| RedactorSpec.NoneInsideIsChunkSafe | src/run.ts:269-303 | in particular when no value occurs at a nonzero offset inside another |
| Redactor.IndexOf | src/run.ts:257-267 | the least index of an occurrence, or -1 if and only if there is none |
| Redactor.SecretRedactor.constructor | src/run.ts:250-255 | keeps every non-empty value once |
| Redactor.SecretRedactor.FirstCompleteMatch | src/run.ts:257-267 | the loop over values finds the leftmost match and the longest value there |
| Redactor.SecretRedactor.PrefixCarryLength | src/run.ts:305-311 | the loop over lengths, bounded by the longest value, finds the longest carry |
| Redactor.SecretRedactor.Write | src/run.ts:269-291 | one chunk updates carry and stop flag as the stream specification says; on a leak the output ends in the literal marker |
| Redactor.SecretRedactor.End | src/run.ts:292-301 | the end of a stream does the same |
| GuardedRun.RunIsGuarded | src/run.ts:502-523 | for every interleaving both streams are forwarded up to their carries, or the run has halted at a leak |
| GuardedRun.NothingAfterDetection | src/run.ts:502-555 | after the first detection no later chunk and no part of the close handler writes anything |
| GuardedRun.GuardedRunIsSafe | src/run.ts:471-566 | the leak flag ends true if and only if one of the two full streams contains a value; otherwise both are forwarded unchanged |
| GuardedRun.GuardedChild.HandleLeak | src/run.ts:502-509 | the notice is written once and stops forwarding |
| GuardedRun.GuardedChild.OnStdout | src/run.ts:511-516 | the stdout handler is the step of the state machine |
| GuardedRun.GuardedChild.OnStderr | src/run.ts:518-523 | the stderr handler is the step of the state machine |
| GuardedRun.GuardedChild.OnClose | src/run.ts:529-554 | the close handler is the end of the state machine |
| GuardedRun.Supervise | src/run.ts:471-566 | a whole run of the handlers, in any order of events, has that result |
| PolicyRules.EvaluateAuthorizationRules | src/policy.ts:417-446 | the one-pass evaluator is: the most specific matching level decides, a lock wins ties, else the default; which rules decide is stated by parts in the next two rows |
| PolicyRules.DecidedByParts | src/policy.ts:417-446 | matching rules that name the secret decide alone; without one, those that name project and environment; without one, those with a single part; without any, the default, which locks only if interactive; among the deciding rules one lock suffices |
| PolicyRules.MorePartsOverride | src/policy.ts:242-256 | among rules that can be stored a match overrides every match that fixes fewer parts: locked iff some locking match is exceeded by none |
| PolicyRules.PermutationsDecideAlike | src/policy.ts:426-446 | permuting the rules changes no decision |
| PolicyRules.MutateRule | src/policy.ts:579-618 | lock and unlock update, and inherit removes, one entry of a selector map; as a list, the other rules stay and the selector has exactly the rule asked for, or none; nothing is committed exactly when the map stays the same |
| PolicyRules.MutationIsLocal | src/policy.ts:579-618 | a mutation changes no decision outside its selector or below a more specific match |
| PolicyRules.MutationTakesEffect | src/policy.ts:417-446 | where its selector is the most specific match a lock locks, and an unlock unlocks unless another rule of the level locks |
| PolicyRules.InheritTakesEffect | src/policy.ts:595-600 | after inherit every decision is the one of the rules without that selector |
| PolicyRules.AgainstTheDefault | src/policy.ts:671-701 | a locking default moves a record from interactive to machine, and an unlocking one the other way, if and only if a rule decides so and the record did not follow it |
| PolicyRules.TransitionedByDefault | src/policy.ts:703-715 | behind a new default, what no rule matches is interactive after a lock and machine after an unlock, and coherent records move in that direction only |
| PolicyRules.PreviewAuthorizationDefault | src/policy.ts:671-701 | the preview counts every record once, in any order; it announces a move against the new default if and only if a record does not follow a rule that decides so, and none for coherent records |
| PolicyRules.PreviewIsExactIff | src/policy.ts:671-715 | the preview equals what the change does if and only if the change is not skipped or all records are coherent |
| PolicyRules.PreviewOfCoherentPolicy | src/policy.ts:671-715 | under coherence of all records the preview is exact, early return included |
| PolicyCommit.AgreementIsWhole | src/policy.ts:373-385 | in every state a commit can be cut in, files and database anchor agree only on a whole quadruple |
| PolicyCommit.PolicyProcess.WriteDatabaseAnchor | src/policy.ts:333-355 | anchor and row classes change in one transaction or not at all |
| PolicyCommit.PolicyProcess.RecoverInterruptedPolicy | src/policy.ts:365-415 | recovery keeps the commit safe at every cut and ends at the quadruple the database decided |
| PolicyCommit.PolicyProcess.CommitPolicyDocument | src/policy.ts:510-577 | success is the whole new quadruple; a reported failure has changed everything iff the exception is the one behind the database commit; undisturbed, exactly a refused mutation fails; a bounded number of steps |
| PolicyCommit.CommitAcrossCrashes | src/policy.ts:365-577 | a commit cut anywhere and recoveries cut anywhere end at the whole old or whole new quadruple, new iff the first process reached the database commit and the transition was not refused, also for the first policy; rows and rules agree behind a custody commit and after one that did not happen |
| PolicyCommit.MutateAuthorizationRule | src/policy.ts:579-618 | the whole operation changes the rule map as asked, rows and rules in agreement, or nothing that recovery will not undo; a failure that changed everything is characterised; without a change it writes nothing |
| PolicyCommit.MutateAuthorizationDefault | src/policy.ts:703-715 | the same for the default, with the classes the preview was about: after a lock the evaluator locks what no rule matches and it is in interactive custody, after an unlock the opposite, and no coherent record moves the other way |
| VaultState.MovedCiphertextIsRejected | src/vault.ts:866-955 | a ciphertext opens at its own identity, class and record id under its own key, and nowhere else |
| Vault.OpenVault.KeyForClass | src/vault.ts:2130-2135 | the interactive key is given only when cached and accepted by its check |
| Vault.OpenVault.StoreSecret | src/vault.ts:2137-2183 | set is map update, keeps the record id of an existing record, and is refused exactly for bad names, a locked class or a taken id |
| Vault.OpenVault.ResolveSecret | src/vault.ts:2209-2227 | get is map lookup, except for removed internal names and locked records |
| Vault.OpenVault.DeleteSecret | src/vault.ts:2621-2625 | delete is removal |
| Vault.OpenVault.DeleteBulkIfUnchanged | src/vault.ts:2678-2695 | bulk deletion removes exactly the confirmed records or none; what stays is what lies outside the named project or environment |
| Vault.NextIsFree | src/vault.ts:2706-2744 | with an empty collision query, no step of the rename loop violates the primary key |
| Vault.MovedInOrderIsMoved | src/vault.ts:2706-2744 | the loop moves the listed rows, re-sealed for their destination, and touches no other |
| Vault.MovedKeepsCount | src/vault.ts:2706-2744 | the loop keeps the number of rows |
| Vault.OpenVault.ReencryptMovedRows | src/vault.ts:2706-2744 | the loop does all of this, or is rolled back when it needs a locked key |
| Vault.OpenVault.Rename | src/vault.ts:2758-2867 | all four forms remap keys and keep values, classes, record ids and count; refused exactly for bad names, a collision or a locked row |
| Vault.OpenVault.RenameProject | src/vault.ts:2758-2781 | every (p, e, n) is then (q, e, n), none is left in p, everything else stays, and the count is the records that were in p; refused exactly for a bad name, an existing (q, e, n), or an interactive record while locked |
| Vault.OpenVault.RenameEnvironmentInProject | src/vault.ts:2783-2807 | the same for (p, e, n) and (p, f, n) in one project |
| Vault.OpenVault.RenameEnvironmentAcrossAllProjects | src/vault.ts:2809-2835 | the same for (p, e, n) and (p, f, n) in every project |
| Vault.OpenVault.RenameScope | src/vault.ts:2837-2867 | the same for (p, e, n) and (q, f, n) |
| Vault.RenameRoundTripIff | src/vault.ts:2758-2867 | a rename and the rename in the opposite direction restore the table if and only if nothing was in the target scope before |
| CustodyTransition.TransitionedIsSound | src/vault.ts:2265-2336 | moving custody keeps every value and record id and gives every row its target class |
| CustodyTransition.TransitionRecordCustody | src/vault.ts:2265-2336 | the transition does that for every row: interactive iff the evaluator locks it; what left machine custody is residue and raises the flag at this generation, nothing else does; it is refused exactly when rows move while locked |
| CustodyTransition.CountsMatchPreview | src/vault.ts:2317-2335 | its three counts are the ones the preview of a default counted |
| KeyBundle.DrawKey | src/software/key-bundle.ts:470-482 | a fresh key repeats none in use; the second draw counts only when the first did |
| KeyBundle.EnrollInteractive | src/software/key-bundle.ts:444-460 | enrolment keeps the machine key and goes one generation on |
| KeyBundle.RewrapInteractive | src/software/key-bundle.ts:430-442 | rotation of the passphrase keeps both data keys |
| KeyBundle.RotateMachine | src/software/key-bundle.ts:462-491 | retirement replaces the machine key and keeps the interactive one |
| KeyBundle.RowsSurvive | src/vault.ts:1422-1448 | rows stay readable under the next bundle: enrolment needs no interactive rows without an envelope, retirement no machine rows |
| Custody.CustodyProcess.RecoverInterruptedCustodyTransition | src/vault.ts:1317-1361 | recovery takes the bundle the database generation names, at every cut |
| Custody.CustodyProcess.CommitKeyBundleTransition | src/vault.ts:1367-1420 | journal, bundle, database, end of journal; every cut is recoverable, success is exactly an undisturbed run, and it takes effect exactly when the database commit is reached |
| Custody.TransitionAcrossCrashes | src/vault.ts:1317-1420 | after any crashes the bundle is the one whose generation and hash the database holds and the journal is gone, also when the journal's own key is replaced; the new one iff the first process reached the database commit |
| Custody.EnrollInteractivePassphrase | src/vault.ts:1422-1433 | enrolment leaves rows and machine key alone and wraps the first draw that is not the machine key; it succeeds exactly with no envelope, a passphrase, such a draw, and eight undisturbed steps |
| Custody.RotateInteractivePassphrase | src/vault.ts:1435-1448 | passphrase rotation leaves rows and both keys alone; it succeeds exactly with the current passphrase, a new one, and eight undisturbed steps |
| Sanitization.ClearMeansClean | src/vault.ts:2354-2387 | in every state a cleanup can be cut in, a clear flag means no residue, and a replaced machine key where no row used it |
| Sanitization.ValidContentsIff | src/vault.ts:457-482 | validation accepts if and only if the keys at hand pass their checks and every row was sealed with the key of its class for its own place |
| Sanitization.SanitizeClosedVault | src/vault-files.ts:149-187 | the vacuum removes the residue and the flag stays until later |
| Sanitization.RetireMachineDataKey | src/vault.ts:2421-2438 | retirement is one journalled transition, made only after the residue is gone |
| Sanitization.CompletePendingCustodySanitization | src/vault.ts:2440-2517 | one attempt; it retires only while the bundle has the generation of the tightening |
| Sanitization.RecoverVault | src/cli.ts:470-488 | custody recovery at the next start: journal first, then the pending cleanup |
| Sanitization.SanitizeAcrossCrashes | src/vault.ts:2440-2517 | exactly once across crashes: the machine key is replaced, with generation exactly g+1, iff the tightening at g left no machine row |
| Sanitization.TighteningNeedsCleanup | src/vault.ts:2321-2334 | a transition that tightened anything starts exactly such a cleanup |
| Refinement.ExecuteMoveCustody | src/cli.ts:595-640 | a custody move with its cleanup keeps every value and record id, gives every record the class of its rules, is refused exactly when records move while locked, and retires the machine key iff it tightened and no machine record is left |
| Refinement.ExecuteOnKeys | src/vault.ts:1422-1448 | enrolment and rotation, cut anywhere, set the passphrase or change nothing, and keep every record |
| Refinement.RunRefinesMap | src/vault.ts:2137-2867 | every run of set, deletions, rename, custody moves, enrolment and rotation is a run of a plain map of meanings and a passphrase, each outcome included: carried out exactly when the map accepts the command and the command is not cut before its commit |
| Refinement.ReadBack | src/vault.ts:2209-2227 | and every value can be read back, an interactive one exactly with the passphrase |
| Coherence.RenameKeepsListedCoherent | src/cli.ts:375-385 | the rename check keeps listed records coherent |
| Coherence.RenameKeepsCoherentIff | src/cli.ts:375-385 | a rename keeps all records coherent if and only if no selected row, hidden or listed, changes its authorization |
| Coherence.HiddenRecordLosesCoherence | src/vault.ts:2580-2606 | an input on which the check passes and a hidden record changes its authorization |
| Coherence.ListedNames | src/vault.ts:2580-2606 | a listing hides exactly the names that begin with two underscores and the five removed ones |
| Coherence.CheckAuthorization | src/cli.ts:375-385 | the check fails if and only if some selected row, whose name neither begins with two underscores nor is one of the five removed ones, changes its decision |
| Coherence.Session.SetSecret | src/cli.ts:721 | set stores under the class the evaluator asks for |
| Coherence.Session.RenameScope | src/cli.ts:372-429 | check and rename together keep coherence |
| Coherence.Session.CommitPolicy | src/policy.ts:333-355 | after a committed policy change every record is coherent, and no value changed |
| CrashRuns.AskedDecideAlike | src/policy.ts:417-446 | whether a command is accepted does not depend on how the rules it asks for are ordered |
| CrashRuns.RecordCommandsAccepted | src/cli.ts:268-316 | set needs valid names, a value and, where the evaluator locks the record, the passphrase; delete a record; bulk deletion exactly the records of its scope, and some; enrolment no passphrase yet, rotation the current one |
| CrashRuns.RenamesAccepted | src/cli.ts:372-429 | a rename needs valid names, the passphrase as soon as any record is interactive, free destinations, and unchanged decisions for what is not hidden |
| CrashRuns.PolicyCommandsAccepted | src/cli.ts:557-640 | lock, unlock and inherit need the passphrase and a rule to change; a new default has to differ from the stored one, and needs the passphrase to lock or to move any record |
| CrashRuns.DefaultIsFollowed | src/cli.ts:565-596 | after a carried out default what no rule matches is in its class and decided so, and no listed record moves the other way |
| CrashRuns.EffectKeepsCoherent | src/cli.ts:372-429 | set under the evaluated class, deletions, a checked rename and key commands keep listed records coherent |
| CrashRuns.ExecuteOnVault | src/vault.ts:2137-2867 | these commands are whole steps on the records and leave the policy alone |
| CrashRuns.ChangePolicy | src/cli.ts:557-640 | a policy commit, its recoveries and its cleanup, each cut anywhere: rules, default and all records change together or nothing does |
| CrashRuns.ExecuteOnPolicy | src/policy.ts:579-761 | lock, unlock, inherit and new defaults are whole steps, carried out exactly when they change something, the vault is unlocked where the command line asks for it, and they are not cut before their commit; a new default is followed by what no rule matches |
| CrashRuns.RunAcrossCrashes | src/cli.ts:470-640 | every run of commands, each process cut anywhere, is a sequence of whole steps on rules and records, each carried out exactly when accepted and not cut before its commit; at its end nothing is pending and a record is in interactive custody iff the evaluator locks it, unless its name begins with two underscores or is one of the five removed ones |
| Initialization.VaultDirectory.InitializeVault | src/vault.ts:1161-1221 | bundle, database file and tables appear in this order, each exactly when its step is reached; a key file or database in the way stops it |
| Initialization.RetryStuck | src/vault.ts:1182-1188 | a bundle without its database stays: every further `init` throws and nothing opens the vault |
| Initialization.CommitFirstPolicy | src/policy.ts:624-655 | the first policy, by `init` or by the default migration of a later start, exists exactly when one of them reached its commit |
| Initialization.InitializeAcrossCrashes | src/cli.ts:527-548 | an `init` cut anywhere, and starts cut anywhere: nothing iff the bundle was not written, a steady vault without records, with the given keys, iff the database was committed, stuck exactly in between; with a passphrase the evaluator then locks every record, without one none |
| LifecycleLock.StepKeepsInvariant | src/cli.ts:508-523 | every step of every process keeps lock exclusion and the absence of pending work under shared bodies |
| LifecycleLock.NoPendingWorkUnderSharedLock | src/cli.ts:460-523 | in every run, while a body runs under a shared lock none of the seven kinds of work is pending, its command starts none, and nobody holds the lock exclusively |
| LifecycleLock.OnlyTheHolderChangesWork | src/lifecycle-lock.ts:9-54 | pending work of every kind changes only in steps of the one exclusive holder, although no step of a body looks at the lock |
| LifecycleLock.FirstCheckIsNotEnough | src/cli.ts:518-522 | without the second check a shared holder could meet pending work |
| LifecycleLock.SharedBodiesOverlap | src/lifecycle-lock.ts:9-54 | the shared mode is shared: any two shared commands can be in their bodies at once |
| LifecycleLock.BodiesOverlapIff | src/lifecycle-lock.ts:9-11 | two bodies can be active at once if and only if neither is a managed restore nor one of the seven listed commands, each of which excludes every other body |
| OwnerFile.OwnerOnlyFile.Create | native/keyclasp-core/src/owner_file.rs:112-124 | never overwrites; the content is visible exactly when the link was made, also after a failure, and success is exactly an undisturbed run where no file was |
| OwnerFile.OwnerOnlyFile.Replace | native/keyclasp-core/src/owner_file.rs:101-110 | the new content is visible exactly when the rename was made: `Failed` means the old content, `Indeterminate` the new one |
| HardwareKey.KeyTransaction.LoadRecord | native/keyclasp-core/src/vault_key.rs:212-215 | loads exactly an existing record with its recovery secret; a missing record, another secret and a failing file each have their own result |
| HardwareKey.KeyTransaction.Begin | native/keyclasp-core/src/vault_key.rs:135-157 | a pending record appears only where none was; success is exactly an undisturbed run there; an existing record gives the error of a wrong secret, of an active or of a pending record, in this order |
| HardwareKey.KeyTransaction.Activate | native/keyclasp-core/src/vault_key.rs:159-195 | after every error but the indeterminate one the record is pending still; success is exactly an undisturbed run with a storable record |
| HardwareKey.KeyTransaction.RollbackCreated | native/keyclasp-core/src/transaction.rs:437-442 | a key is deleted only while the record is pending |
| HardwareKey.KeyTransaction.CreateNew | native/keyclasp-core/src/transaction.rs:413-445 | succeeds exactly where no record was, the platform makes a valid, storable key and nothing interrupts; the record it leaves is determined by its cut; a failure leaves no key unless it says so; where a record is, the back end is not called and the error says which record it is |
| HardwareKey.KeyTransaction.OpenExisting | native/keyclasp-core/src/transaction.rs:467-495 | succeeds exactly on an active record with its secret; a missing record, another secret and a pending record each have their own error; changes nothing and never finds the two data-key copies different |
| HardwareKey.RunLifecycle | native/keyclasp-core/src/transaction.rs:413-496 | every run is a sequence of transactions, each of which does to the record what its cut says: a key exists only beside a record, an active record has its key and one data key, and over the whole run the platform is asked for one key at most and at most that one is deleted |
| RecordCodec.EncodeRecordWithNonce | native/keyclasp-core/src/vault_key.rs:248-293 | appending field after field gives the encoded record |
| RecordCodec.HeaderLayout | native/keyclasp-core/src/vault_key.rs:268-280 | the 22 header bytes: magic, version, state, algorithms, policy, and three big-endian lengths |
| RecordCodec.RecordLayout | native/keyclasp-core/src/vault_key.rs:281-293 | behind them application tag, public key, hardware ciphertext and nonce, all authenticated, then tag and sealed data key |
| RecordCodec.CutOfEncoded | native/keyclasp-core/src/vault_key.rs:300-340 | cutting by the header's lengths recovers the fields exactly within the bounds |
| RecordCodec.DecodeInvertsEncodeIff | native/keyclasp-core/src/vault_key.rs:248-380 | decoding inverts encoding if and only if the record is within the reader's bounds |
| RecordCodec.DecodeAcceptsOnlyImages | native/keyclasp-core/src/vault_key.rs:295-380 | whatever decodes is the encoding of what it decodes to, with the sizes of its state |
| RecordCodec.DecodeFailsIff | native/keyclasp-core/src/vault_key.rs:295-380 | authentication fails exactly for bytes that encode no fields at all under this secret and tag; bytes that do, but of no state, are exactly the damaged ones |
| RecordCodec.EncodingIsInjective | native/keyclasp-core/src/vault_key.rs:248-293 | two readable records are the same bytes only if they hold the same state |
| AssociatedData.FieldIsPrefixFree | src/vault.ts:859-864 | a length-prefixed field can be told from what follows |
| AssociatedData.AssociatedDataLayout | src/vault.ts:866-890 | a reader of the length prefixes finds, behind domain and version, the identity field by field in its order, and last the name of the key class unless the version is the legacy one |
| AssociatedData.AssociatedDataIsInjectiveIff | src/vault.ts:866-890 | associated data agrees if and only if version and identity do, where the legacy version does not see the key class |
| OperatorPrompt.DisplayOperatorField | src/runtime.ts:32-47 | the loop builds the escaped, quoted field; a text without hidden characters, quotes and backslashes is shown as it is |
| OperatorPrompt.CharacterShown | src/runtime.ts:36-44 | each character by itself: hidden ones as their code point in braces, backslash and quote behind a backslash, every other one as itself |
| OperatorPrompt.HexIs | src/runtime.ts:37 | the code point in upper-case hexadecimal without leading zeros |
| OperatorPrompt.ReasonStarts | src/runtime.ts:49-51 | the prompt starts with its fixed words, and every further part adds a slash and itself |
| OperatorPrompt.DisplayIsInjective | src/runtime.ts:32-47 | different values are never shown alike |
| OperatorPrompt.ReadPartsOfJoined | src/runtime.ts:49-51 | a reader recovers the part list from what is shown |
| OperatorPrompt.ReasonIsInjective | src/runtime.ts:49-51 | distinct part lists show distinct prompts |
| OperatorPrompt.NothingHiddenIsShown | src/runtime.ts:36-44 | no control, format or separator character reaches the operator |

## Left out

- Real cryptography, base64, JSON and UTF-8: sealing is symbolic, hashes are injective, selectors stand for their JSON.
- Machine identity: the model stays on one machine, so the machine envelope always unwraps; `writeActiveKeyBundle`'s
  backup copies are not kept.
- SQLite internals: a transaction is one step; checkpoint, vacuum and sidecar removal are one removal of residue.
- File ownership, modes, symbolic links, `lsof` and `/proc` scans: assumed to pass, or an exception at a primitive.
- Restores started while an older restore journal is pending, with nested evidence directories, and the classification
  of a vault as healthy or damaged, which is an input.
- SQLite sidecars that a reader of the staged database could create: managed backups are made by `VACUUM INTO` and are
  not in WAL mode.
- Temporary names of the atomic writes of policy and custody files in the vault directory; a leftover there is never
  read and stops nothing. One cut inside `writeCustodyJournal` (`src/vault.ts:1294-1304`) during a retirement does
  keep the previous bundle, with the envelope of the retired machine key, and no cleanup removes it.
- Sanitization.ClearMeansClean: speaks of the residue in the database file only, not of that leftover.
- The number of projects that a rename across all projects reports besides the number of records.
- Legacy key files and schema upgrades, including the dual-key migration and the sanitization of a vault whose metadata
  has no sanitization version.
- The order in which values are sorted before matching, which cannot be observed; UTF-8 decoding of child output;
  signals and process groups, and the parent's own message when it cannot confirm that they ended; names of rules as
  validated on load.
- The cached machine key: every use validates it against bundle and database, so the bundle's key stands for it.
- Residue of values that set or delete overwrote: the sanitization flag is raised by tightenings only, and so is the
  residue of the model.
- Sanitization.SanitizeAcrossCrashes: the last attempt has the right passphrase and a fresh random key, because without
  them the code can only report that the cleanup is still pending.
- LifecycleLock.NoPendingWorkUnderSharedLock: says nothing about `doctor`, which takes no lock and changes nothing, and
  nothing about progress. What each command can leave pending is a table read off the calls it makes.
- CrashRuns.RunAcrossCrashes: reads are left to `Refinement`; managed restores and the interleaving of processes are
  other parts of this project. Operator authentication before a command, other than the passphrase, is not modelled.
- HardwareKey.RunLifecycle: keys created or deleted outside Keyclasp are not modelled, nor is a power loss that undoes
  an unsynced rename.
- OperatorPrompt.ReasonIsInjective: the Unicode tables are a parameter of which only printable ASCII is fixed.
