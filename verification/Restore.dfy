/**
 Managed restore and its recovery, one file-system primitive at a time.

 Every primitive is durable once performed. A method returns `Died` when the process died inside it and `Threw`
 when an exception leaves it, so a contract that holds for every result holds for every crash point.
*/
module Restore {
  import opened Options
  import opened Crashes
  import opened VaultFiles
  import opened Rollback
  import opened RestoreJournal
  import opened RestoreWork

  // Primitives of one journal replacement: key, temporary file, rename, directory sync, removal of a leftover.
  const PERSIST_STEPS: nat := 5
  const WRITE_STEPS: nat := 3

  /** Primitives of `count` reconciled operations: a mutation, its directory sync, and one journal replacement. */
  function ReconcileSteps(count: nat): nat { 7 * count }

  function CleanupSteps(plan: Plan): nat {
    PERSIST_STEPS + 6 + ReconcileSteps(SCRATCH_FILES + 3 * |plan.staged| + |plan.previous|)
  }

  /** An entry of the staging directory, or of the previous one. */
  predicate Within(staging: bool, path: Path) {
    if staging then path.Staging? else path.Previous?
  }

  /** Primitives that suffice for one complete recovery. */
  function RecoverySteps(plan: Plan): nat {
    2 + PERSIST_STEPS + ReconcileSteps(|plan.previous| + |plan.staged|) + CleanupSteps(plan)
  }

  class RestoreProcess {
    const fuse: Fuse
    var disk: Disk
    var journal: Journal
    ghost var written: set<Phase>  // the phases of all journals that ever became durable
    ghost var mutations: nat       // renames and unlinks of vault files, directory, journal and key removals

    /** An exception is one that was due, or the disk is blocked. */
    twostate predicate Excused(s: Status)
      reads this, fuse
    {
      s.Threw? ==> fuse.faults.Count() < old(fuse.faults).Count() || Blocked(disk)
    }

    /** `New` is decided exactly by a durable committed journal that no rollback journal followed. */
    ghost predicate Decided(outcome: Outcome)
      reads this
    {
      outcome.New? <==> CommittedPhase in written && RollbackPhase !in written
    }

    /** The process may be interrupted here: a completed recovery of this disk leaves `outcome`. */
    ghost predicate Safe(plan: Plan, outcome: Outcome)
      reads this
    {
      && HeadsFor(plan, outcome, disk)
      && Decided(outcome)
      && (disk.journal.Some? ==> disk.journal.value.phase in written)
    }

    /** The journal in memory and the durable one differ in completion flags at most. */
    ghost predicate Loaded()
      reads this
    {
      disk.journal.Some? && SameJournal(disk.journal.value, journal)
    }

    /** Handling one operation changes nothing but files, completion flags and counters. */
    twostate predicate Kept(s: Status)
      reads this
    {
      && Loaded() && SameJournal(journal, old(journal)) && disk.journalKey.WholeKey? && written == old(written)
      && disk.stagingDirectory == old(disk.stagingDirectory) && disk.previousDirectory == old(disk.previousDirectory)
      && (s.Ok? && disk.journalTemporary ==> old(disk.journalTemporary))
      && mutations == old(mutations) + One(disk.files != old(disk.files))
    }

    constructor (disk: Disk, journal: Journal, fuse: Fuse)
      ensures this.disk == disk && this.journal == journal && this.fuse == fuse
      ensures written == {} && mutations == 0
    {
      this.disk, this.journal, this.fuse := disk, journal, fuse;
      written, mutations := {}, 0;
    }

    /** Creates the transaction key; a cut between its two steps leaves it empty. */
    method CreateKey() returns (s: Status)
      requires disk.journalKey.NoKey?
      modifies this`disk, fuse
      ensures fuse.Ran(s, 2)
      ensures disk == old(disk).(journalKey := if old(fuse.Calm(2)) then WholeKey
                                               else if old(fuse.Calm(1)) then EmptyKey else NoKey)
    {
      s := fuse.Primitive();
      if !s.Ok? { return; }
      disk := disk.(journalKey := EmptyKey);
      s := fuse.Primitive();
      if !s.Ok? { return; }
      disk := disk.(journalKey := WholeKey);
    }

    /** Replaces the durable journal by the one in memory. An empty key stops it. */
    method PersistJournal() returns (s: Status)
      modifies this`disk, fuse, this`written
      ensures fuse.Used(s, PERSIST_STEPS)
      ensures s.Threw? ==> fuse.faults.Count() < old(fuse.faults).Count() || old(disk.journalKey).EmptyKey?
      ensures old(disk.journalKey).NoKey? ==> fuse.Ran(s, PERSIST_STEPS)
      ensures old(disk.journalKey).NoKey? ==> (disk.journalKey.EmptyKey? <==> old(fuse.Left()).StopsIn(1, 2))
      ensures old(disk.journalKey).WholeKey? ==> fuse.Ran(s, WRITE_STEPS)
      ensures old(disk.journalKey).WholeKey? ==> disk.journalKey.WholeKey?
      ensures Persisted(s)
      ensures s.Ok? ==> !disk.journalTemporary
    {
      if disk.journalKey.EmptyKey? { return Threw; }
      if disk.journalKey.WholeKey? {
        s := WriteJournal();
        return;
      }
      ghost var cut := fuse.Left();
      s := CreateKey();
      ghost var next := fuse.Left();
      if !s.Ok? {
        RunsShort(cut, next, s, 2, PERSIST_STEPS);
        return;
      }
      s := WriteJournal();
      RunsOn(cut, next, fuse.Left(), s, 2, WRITE_STEPS);
    }

    /** The durable journal is the one in memory, or the write did not succeed and it is the one before. */
    twostate predicate Persisted(s: Status)
      reads this
    {
      && disk.files == old(disk.files)
      && disk.stagingDirectory == old(disk.stagingDirectory) && disk.previousDirectory == old(disk.previousDirectory)
      && ((!s.Ok? && disk.journal == old(disk.journal) && written == old(written)) ||
          (disk.journal == Some(journal) && written == old(written) + {journal.phase} && disk.journalKey.WholeKey?))
    }

    /** The rename of the temporary journal. When it throws, the temporary file is removed again, if that works. */
    method RenameJournal() returns (s: Status)
      requires disk.journalKey.WholeKey?
      modifies this`disk, fuse, this`written
      ensures fuse.Ran(s, 1)
      ensures s.Ok? ==>
                disk == old(disk).(journal := Some(journal), journalTemporary := false) &&
                written == old(written) + {journal.phase}
      ensures !s.Ok? ==> disk == old(disk).(journalTemporary := disk.journalTemporary) && written == old(written)
    {
      s := fuse.Primitive();
      if s.Died? { return; }
      if s.Threw? {
        var removed := fuse.Primitive();
        if removed.Died? { return Died; }
        if removed.Ok? { disk := disk.(journalTemporary := false); }
        return;
      }
      disk := disk.(journal := Some(journal), journalTemporary := false);
      written := written + {journal.phase};
    }

    /** The temporary file and its rename. */
    method ReplaceJournal() returns (s: Status)
      requires disk.journalKey.WholeKey?
      modifies this`disk, fuse, this`written
      ensures fuse.Ran(s, 2) && Persisted(s)
      ensures disk.journalKey == old(disk.journalKey) && (s.Ok? ==> !disk.journalTemporary)
      ensures s.Ok? ==> disk.journal == Some(journal) && written == old(written) + {journal.phase}
    {
      ghost var cut := fuse.Left();
      s := fuse.Primitive();
      ghost var next := fuse.Left();
      if !s.Ok? {
        RunsShort(cut, next, s, 1, 2);
        return;
      }
      disk := disk.(journalTemporary := true);
      s := RenameJournal();
      RunsOn(cut, next, fuse.Left(), s, 1, 1);
    }

    /** Besides, the sync of the directory. */
    method WriteJournal() returns (s: Status)
      requires disk.journalKey.WholeKey?
      modifies this`disk, fuse, this`written
      ensures fuse.Ran(s, WRITE_STEPS) && Persisted(s)
      ensures disk.journalKey == old(disk.journalKey) && (s.Ok? ==> !disk.journalTemporary)
    {
      ghost var cut := fuse.Left();
      s := ReplaceJournal();
      ghost var next := fuse.Left();
      if !s.Ok? {
        RunsShort(cut, next, s, 2, WRITE_STEPS);
        return;
      }
      s := fuse.Primitive();
      RunsOn(cut, next, fuse.Left(), s, 2, 1);
    }

    /** An operation was handled as its decision says, unless another exception came in between. */
    twostate predicate AsDecided(index: nat, direction: Direction, s: Status)
      requires index < |old(journal).operations|
      reads this, fuse
    {
      var op, files := old(journal).operations[index], old(disk.files);
      var decision := Decide(files, op, direction);
      && (s.Ok? ==> disk.files == Reconciled(files, op, direction))
      && (disk.files == files || (decision.Mutate? && disk.files == Mutated(files, op, direction)))
      && (decision.Refuse? ==> s.Threw?)
      && (s.Threw? ==> decision.Refuse? || fuse.faults.Count() < old(fuse.faults).Count())
    }

    method ReconcileUnlink(index: nat, direction: Direction) returns (s: Status)
      requires Loaded() && index < |journal.operations| && disk.journalKey.WholeKey? && journal.phase in written
      requires journal.operations[index].Unlink?
      modifies this, fuse
      ensures fuse.Used(s, ReconcileSteps(1)) && Kept(s) && AsDecided(index, direction, s)
    {
      var op := journal.operations[index];
      var state := if !op.unverified then Observe(disk.files, op.path, op.hash)
                   else if op.path in disk.files then Expected else Absent;
      if state.Other? { return Threw; }
      if state.Absent? == direction.Forward? {
        s := Complete(index, op.completed);
        return;
      }
      if direction.Rollback? { return Threw; }
      s := Change(index, disk.files - {op.path});
    }

    method ReconcileRename(index: nat, direction: Direction) returns (s: Status)
      requires Loaded() && index < |journal.operations| && disk.journalKey.WholeKey? && journal.phase in written
      requires journal.operations[index].Rename?
      modifies this, fuse
      ensures fuse.Used(s, ReconcileSteps(1)) && Kept(s) && AsDecided(index, direction, s)
    {
      var op := journal.operations[index];
      var moveFrom := if direction.Forward? then op.source else op.target;
      var moveTo := if direction.Forward? then op.target else op.source;
      var fromState := Observe(disk.files, moveFrom, op.hash);
      var toState := Observe(disk.files, moveTo, op.hash);
      if direction.Rollback? && fromState.Other? && toState.Expected? &&
         op.rollbackDestination == Some(disk.files[op.target])
      {
        return Ok;
      }
      if direction.Rollback? && fromState.Expected? && toState.Expected? && op.rollbackDestination == Some(op.hash) {
        return Ok;
      }
      if fromState.Other? || toState.Other? || fromState == toState { return Threw; }
      if fromState.Absent? && toState.Expected? {
        s := Complete(index, op.completed);
        return;
      }
      s := Change(index, (disk.files - {moveFrom})[moveTo := op.hash]);
    }

    /** Brings one operation of the journal in memory into effect, or undoes it, judging by observed files. What it may
        do to which files is written out in `RenameHandled`, `UnlinkHandled` and `OthersKept`. */
    method Reconcile(index: nat, direction: Direction) returns (s: Status)
      requires Loaded() && index < |journal.operations| && disk.journalKey.WholeKey? && journal.phase in written
      modifies this, fuse
      ensures fuse.Used(s, ReconcileSteps(1)) && Kept(s) && AsDecided(index, direction, s)
      ensures var op := old(journal).operations[index];
              var interrupted := fuse.faults.Count() < old(fuse.faults).Count();
              && (op.Rename? ==>
                    RenameHandled(old(disk.files), disk.files, op, direction, s.Ok?, s.Threw?, interrupted))
              && (op.Unlink? ==>
                    UnlinkHandled(old(disk.files), disk.files, op, direction, s.Ok?, s.Threw?, interrupted))
              && OthersKept(old(disk.files), disk.files, op)
    {
      var op := journal.operations[index];
      ghost var files, faults := disk.files, fuse.faults;
      if op.Unlink? {
        s := ReconcileUnlink(index, direction);
      } else {
        s := ReconcileRename(index, direction);
      }
      DecisionHandles(files, disk.files, op, direction, s.Ok?, s.Threw?, fuse.faults.Count() < faults.Count());
    }

    /** One rename or unlink, its directory sync, and its completion record. */
    method Change(index: nat, files: Files) returns (s: Status)
      requires Loaded() && index < |journal.operations| && disk.journalKey.WholeKey? && journal.phase in written
      requires files != disk.files
      modifies this, fuse
      ensures fuse.Spent(s, ReconcileSteps(1)) && Kept(s)
      ensures s.Ok? ==> disk.files == files
      ensures disk.files == files || disk.files == old(disk.files)
    {
      s := Mutate(files);
      if !s.Ok? { return; }
      s := Complete(index, false);
    }

    method Mutate(files: Files) returns (s: Status)
      requires files != disk.files
      modifies this`disk, this`mutations, fuse
      ensures fuse.Spent(s, 2) && disk == old(disk).(files := disk.files)
      ensures disk.files == files || (!s.Ok? && disk.files == old(disk.files))
      ensures mutations == old(mutations) + One(disk.files != old(disk.files))
    {
      s := fuse.Primitive();
      if !s.Ok? { return; }
      disk := disk.(files := files);
      mutations := mutations + 1;
      s := fuse.Primitive();
    }

    /** Records that an operation is in its wanted state. */
    method Complete(index: nat, completed: bool) returns (s: Status)
      requires Loaded() && index < |journal.operations| && disk.journalKey.WholeKey? && journal.phase in written
      modifies this, fuse
      ensures fuse.Spent(s, PERSIST_STEPS)
      ensures Kept(s) && disk.files == old(disk.files)
    {
      if completed { return Ok; }
      journal := journal.(operations := journal.operations[index := journal.operations[index].(completed := true)]);
      s := PersistJournal();
    }

    /** Recovery never decides for the new inventory: it writes rollback and cleanup journals only. */
    twostate predicate Recorded()
      reads this
    {
      old(written) <= written <= old(written) + {RollbackPhase, StagingCleanup, RollbackCleanup, CommittedCleanup}
    }

    /** Every mutation is paid for out of the work that was left. */
    twostate predicate Progress(plan: Plan)
      reads this
    {
      Work(plan, disk) + mutations <= old(Work(plan, disk)) + old(mutations)
    }

    /** Removes a directory of the transaction; one that still has entries stops the cleanup. */
    method RemoveDirectoryIfEmpty(staging: bool) returns (s: Status)
      modifies this`disk, fuse, this`mutations
      ensures fuse.Used(s, 1)
      ensures s.Threw? ==>
                || fuse.faults.Count() < old(fuse.faults).Count()
                || exists path :: path in disk.files && Within(staging, path)
      ensures || disk == old(disk)
              || disk == old(disk).(stagingDirectory := false) || disk == old(disk).(previousDirectory := false)
      ensures disk.stagingDirectory != old(disk).stagingDirectory ==> staging
      ensures disk.previousDirectory != old(disk).previousDirectory ==> !staging
      ensures disk != old(disk) ==> forall path :: path in disk.files ==> !Within(staging, path)
      ensures s.Ok? ==> !(if staging then disk.stagingDirectory else disk.previousDirectory)
      ensures mutations + DirectoryWork(disk) == old(mutations) + DirectoryWork(old(disk))
    {
      if !(if staging then disk.stagingDirectory else disk.previousDirectory) { return Ok; }
      if exists path | path in disk.files :: Within(staging, path) { return Threw; }
      s := fuse.Primitive();
      if !s.Ok? { return; }
      disk := if staging then disk.(stagingDirectory := false) else disk.(previousDirectory := false);
      mutations := mutations + 1;
    }

    /** A cleanup journal is in memory, and its list still covers everything that has to disappear. */
    ghost predicate Cleaning(plan: Plan, outcome: Outcome)
      reads this
    {
      && plan.Valid() && Loaded() && disk.journalKey.WholeKey?
      && journal.phase in {StagingCleanup, RollbackCleanup, CommittedCleanup} && journal.phase in written
      && (outcome.New? <==> journal.phase.CommittedCleanup?)
      && JournalFor(plan, journal) && CleanupState(plan, outcome, journal.operations, disk)
      && (journal.phase.StagingCleanup? || Strays(disk.files) == {})
      && Decided(outcome)
    }

    /** Recovery neither adds nor removes what blocks it. */
    twostate predicate SameBlocks()
      reads this
    {
      Strays(disk.files) == Strays(old(disk.files)) && (disk.journalKey.EmptyKey? <==> old(disk.journalKey).EmptyKey?)
    }

    ghost function CleaningWork(): nat
      reads this
    {
      DirectoryWork(disk) + Remaining(journal.operations, disk.files)
    }

    lemma CleaningIsSafe(plan: Plan, outcome: Outcome)
      requires Cleaning(plan, outcome)
      ensures Safe(plan, outcome) && Work(plan, disk) == 2 + CleaningWork()
    {
      CleanupSafe(plan, outcome, disk, journal);
    }

    /** One entry of the cleanup list. */
    method CleanEntry(ghost plan: Plan, ghost outcome: Outcome, index: nat) returns (s: Status)
      requires Cleaning(plan, outcome) && index < |journal.operations|
      modifies this, fuse
      ensures Cleaning(plan, outcome) && Kept(s) && fuse.Spent(s, ReconcileSteps(1))
      ensures mutations + CleaningWork() <= old(mutations) + old(CleaningWork())
      ensures SameBlocks() && forall path :: path in disk.files ==> path in old(disk.files)
      ensures s.Ok? ==> GoneAt(old(journal).operations, index, disk.files)
    {
      ghost var ops, before := journal.operations, disk;
      CleanupStep(plan, outcome, ops, index, disk);
      s := Reconcile(index, Forward);
      SameOperationsSymmetric(journal.operations, ops);
      assert CleanupState(plan, outcome, ops, disk) by {
        var cleaned := before.(files := Reconciled(before.files, ops[index], Forward));
        assert disk.files == before.files || disk.files == cleaned.files;
      }
      CleanupStateIgnoresCompletion(plan, outcome, ops, journal.operations, disk);
      RemainingIgnoresCompletion(journal.operations, ops, disk.files);
      SameJournalSymmetric(journal, old(journal));
      SameJournalKeepsShape(plan, old(journal), journal);
    }

    /** Every entry of the cleanup list, front to back. */
    method CleanEntries(ghost plan: Plan, ghost outcome: Outcome) returns (s: Status)
      requires Cleaning(plan, outcome)
      modifies this, fuse
      ensures Cleaning(plan, outcome) && fuse.Spent(s, ReconcileSteps(|old(journal).operations|))
      ensures mutations + CleaningWork() <= old(mutations) + old(CleaningWork())
      ensures SameBlocks() && written == old(written) && journal.(operations := []) == old(journal).(operations := [])
      ensures s.Ok? && disk.journalTemporary ==> old(disk.journalTemporary)
      ensures s.Ok? ==> Gone(journal.operations, |journal.operations|, disk.files)
    {
      var index := 0;
      ghost var count := |journal.operations|;
      while index < |journal.operations|
        invariant index <= |journal.operations| == count
        invariant Cleaning(plan, outcome) && SameBlocks()
        invariant written == old(written) && journal.(operations := []) == old(journal).(operations := [])
        invariant mutations + CleaningWork() <= old(mutations) + old(CleaningWork())
        invariant fuse.Used(Ok, ReconcileSteps(index))
        invariant disk.journalTemporary ==> old(disk.journalTemporary)
        invariant Gone(journal.operations, index, disk.files)
      {
        ghost var ops, files := journal.operations, disk.files;
        s := CleanEntry(plan, outcome, index);
        if !s.Ok? { return; }
        GoneFurther(ops, journal.operations, index, files, disk.files);
        index := index + 1;
      }
      s := Ok;
    }

    /** The staging directory of a worked-off cleanup: only a stray entry can keep it. */
    method RemoveStaging(ghost plan: Plan, ghost outcome: Outcome) returns (s: Status)
      requires Cleaning(plan, outcome) && Gone(journal.operations, |journal.operations|, disk.files)
      modifies this`disk, fuse, this`mutations
      ensures Cleaning(plan, outcome) && fuse.Used(s, 1) && Excused(s)
      ensures mutations + CleaningWork() <= old(mutations) + old(CleaningWork())
      ensures disk == old(disk).(stagingDirectory := disk.stagingDirectory)
      ensures s.Ok? ==> !disk.stagingDirectory
    {
      EmptyDirectories(plan, outcome, journal.operations, disk);
      s := RemoveDirectoryIfEmpty(true);
      if s.Threw? && fuse.faults.Count() == old(fuse.faults).Count() {
        var path :| path in disk.files && path.Staging?;
        assert path.leaf in Strays(disk.files);
      }
    }

    /** The previous directory, unless it is kept as evidence of a damaged vault. */
    method RemovePrevious(ghost plan: Plan, ghost outcome: Outcome) returns (s: Status)
      requires Cleaning(plan, outcome) && Gone(journal.operations, |journal.operations|, disk.files)
      modifies this`disk, fuse, this`mutations
      ensures Cleaning(plan, outcome) && fuse.Spent(s, 1)
      ensures mutations + CleaningWork() <= old(mutations) + old(CleaningWork())
      ensures disk == old(disk).(previousDirectory := disk.previousDirectory)
      ensures s.Ok? ==> KeepsPrevious(plan, outcome) || !disk.previousDirectory
    {
      EmptyDirectories(plan, outcome, journal.operations, disk);
      if journal.phase == CommittedCleanup && !journal.healthy { return Ok; }
      s := RemoveDirectoryIfEmpty(false);
    }

    method RemoveDirectories(ghost plan: Plan, ghost outcome: Outcome) returns (s: Status)
      requires Cleaning(plan, outcome)
      requires Gone(journal.operations, |journal.operations|, disk.files)
      modifies this`disk, fuse, this`mutations
      ensures Cleaning(plan, outcome) && fuse.Used(s, 2) && Excused(s)
      ensures mutations + CleaningWork() <= old(mutations) + old(CleaningWork())
      ensures disk.files == old(disk.files) && disk.journalKey == old(disk.journalKey)
      ensures disk.journalTemporary == old(disk.journalTemporary)
      ensures s.Ok? ==> Settled(plan, outcome, disk.(journal := None))
    {
      s := RemoveStaging(plan, outcome);
      if !s.Ok? { return; }
      s := RemovePrevious(plan, outcome);
      if s.Ok? { CleanedSettles(plan, outcome, journal, disk); }
    }

    /** The list, then the directories. */
    method WorkOff(ghost plan: Plan, ghost outcome: Outcome) returns (s: Status)
      requires Cleaning(plan, outcome)
      modifies this, fuse
      ensures Cleaning(plan, outcome) && fuse.Used(s, ReconcileSteps(|old(journal).operations|) + 2) && Excused(s)
      ensures mutations + CleaningWork() <= old(mutations) + old(CleaningWork())
      ensures SameBlocks() && written == old(written)
      ensures s.Ok? ==> Settled(plan, outcome, disk.(journal := None))
      ensures s.Ok? && disk.journalTemporary ==> old(disk.journalTemporary)
    {
      s := CleanEntries(plan, outcome);
      if !s.Ok? { return; }
      s := RemoveDirectories(plan, outcome);
    }

    method FinishCleanupJournal(ghost plan: Plan, ghost outcome: Outcome) returns (s: Status)
      requires Safe(plan, outcome) && Loaded() && journal.phase in written
      requires journal.phase in {StagingCleanup, RollbackCleanup, CommittedCleanup}
      modifies this, fuse
      ensures Safe(plan, outcome) && Progress(plan)
      ensures fuse.Used(s, CleanupSteps(plan) - PERSIST_STEPS) && Excused(s)
      ensures SameBlocks()
      ensures written == old(written)
      ensures s.Ok? ==> Settled(plan, outcome, disk) && disk.journalKey.NoKey?
      ensures s.Ok? && disk.journalTemporary ==> old(disk.journalTemporary)
    {
      CleanupLoaded(plan, outcome, disk, journal);
      CleaningIsSafe(plan, outcome);
      s := WorkOff(plan, outcome);
      CleaningIsSafe(plan, outcome);
      if !s.Ok? { return; }
      s := RetireJournal(plan, outcome);
    }

    /** The journal goes before the key that authenticates it. */
    method RetireJournal(ghost plan: Plan, ghost outcome: Outcome) returns (s: Status)
      requires Safe(plan, outcome) && Settled(plan, outcome, disk.(journal := None))
      requires disk.journal.Some?
      modifies this`disk, fuse, this`mutations
      ensures Safe(plan, outcome) && Progress(plan)
      ensures fuse.Spent(s, 4)
      ensures SameBlocks()
      ensures s.Ok? ==> Settled(plan, outcome, disk) && disk.journalKey.NoKey?
      ensures disk.journalTemporary == old(disk.journalTemporary)
    {
      s := fuse.Primitive();
      if !s.Ok? { return; }
      s := fuse.Primitive();
      if !s.Ok? { return; }
      disk := disk.(journal := None);
      mutations := mutations + 1;
      s := RemoveKey(plan, outcome);
    }

    /** Removes the key of a transaction without a journal. */
    method RemoveKey(ghost plan: Plan, ghost outcome: Outcome) returns (s: Status)
      requires Safe(plan, outcome) && disk.journal.None? && disk.journalKey.WholeKey?
      modifies this`disk, fuse, this`mutations
      ensures Safe(plan, outcome) && Progress(plan) && fuse.Spent(s, 2)
      ensures disk == old(disk).(journalKey := disk.journalKey) && !disk.journalKey.EmptyKey?
      ensures s.Ok? ==> disk.journalKey.NoKey?
    {
      s := fuse.Primitive();
      if !s.Ok? { return; }
      disk := disk.(journalKey := NoKey);
      mutations := mutations + 1;
      s := fuse.Primitive();
    }

    /** Makes a cleanup journal durable in place of the one before it. */
    method InstallCleanup(disposition: Disposition, ghost plan: Plan, ghost outcome: Outcome) returns (s: Status)
      requires Safe(plan, outcome) && Loaded() && journal.phase in written
      requires JournalFor(plan, journal) && Precedes(journal.phase, disposition)
      requires CleanupState(plan, outcome, CleanupOperations(journal, disposition), disk)
      requires disposition.StagingDisposition? || Strays(disk.files) == {}
      modifies this, fuse
      ensures Recorded() && fuse.Spent(s, PERSIST_STEPS)
      ensures mutations == old(mutations)
      ensures Cleaning(plan, outcome) || (!s.Ok? && Safe(plan, outcome) && disk.journal == old(disk.journal))
      ensures disk.files == old(disk.files) && DirectoryWork(disk) == old(DirectoryWork(disk))
      ensures Cleaning(plan, outcome) ==> journal.operations == CleanupOperations(old(journal), disposition)
      ensures s.Ok? ==> Cleaning(plan, outcome) && !disk.journalTemporary
      ensures disk.journalKey == old(disk.journalKey)
    {
      journal := journal.(operations := CleanupOperations(journal, disposition), phase := CleanupPhase(disposition));
      InstalledCleanup(plan, old(journal), disposition);
      s := PersistJournal();
    }

    method BeginCleanupJournal(disposition: Disposition, ghost plan: Plan, ghost outcome: Outcome) returns (s: Status)
      requires Safe(plan, outcome) && Loaded() && journal.phase in written
      requires JournalFor(plan, journal) && Precedes(journal.phase, disposition)
      requires CleanupState(plan, outcome, CleanupOperations(journal, disposition), disk)
      requires disposition.StagingDisposition? || Strays(disk.files) == {}
      requires Remaining(CleanupOperations(journal, disposition), disk.files) <=
                 FileWork(plan, disk.journal.value, disk.files)
      modifies this, fuse
      ensures Recorded()
      ensures Safe(plan, outcome) && Progress(plan)
      ensures fuse.Used(s, CleanupSteps(plan)) && Excused(s)
      ensures SameBlocks()
      ensures s.Ok? ==> Settled(plan, outcome, disk) && disk.journalKey.NoKey? && !disk.journalTemporary
    {
      s := InstallCleanup(disposition, plan, outcome);
      if !s.Ok? {
        if Cleaning(plan, outcome) { CleaningIsSafe(plan, outcome); }
        return;
      }
      CleaningIsSafe(plan, outcome);
      s := FinishCleanupJournal(plan, outcome);
    }

    /** The precheck of a rollback, over the operations in reverse. Each has to be a rename with its hash at one of its
        two paths; the other one is empty or holds what the journal has for it: the file that publication will replace,
        or the staged file that replaces a preserved one. */
    method AssertRollbackOperationsReconciliable() returns (accepted: bool)
      ensures accepted <==> Reconciliable(disk.files, journal.operations, journal.stagedHashes)
      ensures accepted <==>
                forall op :: op in journal.operations ==>
                  && op.Rename?
                  && var here, there := Content(disk.files, op.target), Content(disk.files, op.source);
                     || (here == Some(op.hash) && there == None)
                     || (there == Some(op.hash) && (here == None || here == op.rollbackDestination))
                     || (here == Some(op.hash) && op.source.Live? && there != None &&
                         there == HashOf(journal.stagedHashes, op.source.name))
    {
      var index := |journal.operations|;
      while index > 0
        invariant 0 <= index <= |journal.operations|
        invariant forall i :: index <= i < |journal.operations| ==>
                    OperationReconciliable(disk.files, journal.operations[i], journal.stagedHashes)
      {
        index := index - 1;
        if !OperationReconciliable(disk.files, journal.operations[index], journal.stagedHashes) { return false; }
      }
      return true;
    }

    /** A durable rollback journal with exactly the first `i` renames still in effect. */
    ghost predicate Undoing(plan: Plan, i: nat)
      reads this
    {
      && plan.Valid() && Loaded() && disk.journalKey.WholeKey?
      && journal.phase.RollbackPhase? && RollbackPhase in written
      && JournalFor(plan, journal) && disk.stagingDirectory && disk.previousDirectory
      && plan.At(i, disk.files)
    }

    lemma UndoingIsSafe(plan: Plan, i: nat)
      requires Undoing(plan, i)
      ensures Safe(plan, Old) && Work(plan, disk) == 4 + i + 2 * |plan.staged|
    {
      SameJournalSymmetric(disk.journal.value, journal);
      SameJournalKeepsShape(plan, journal, disk.journal.value);
      InEffectAt(plan, i, disk.files, |plan.Operations()|);
    }

    /** One operation of the reverse loop, with all later renames already out of effect. */
    method UndoOperation(ghost plan: Plan, ghost i: nat, index: nat) returns (s: Status, ghost left: nat)
      requires Undoing(plan, i) && i <= index + 1 && index < |journal.operations|
      modifies this, fuse
      ensures Recorded()
      ensures Undoing(plan, left) && fuse.Spent(s, ReconcileSteps(1))
      ensures left <= i && mutations + left <= old(mutations) + i
      ensures s.Ok? ==> left <= index
      ensures |journal.operations| == |old(journal).operations|
      ensures s.Ok? && disk.journalTemporary ==> old(disk.journalTemporary)
    {
      ghost var op := plan.Operations()[index];
      assert Forget(journal.operations[index]) == Forget(op);
      DecideIgnoresCompletion(disk.files, journal.operations[index], op, Direction.Rollback);
      if i == index + 1 {
        UndoStep(plan, index, disk.files);
      } else {
        SkipStep(plan, i, index, disk.files);
      }
      ghost var files := disk.files;
      s := Reconcile(index, Direction.Rollback);
      SameJournalSymmetric(journal, old(journal));
      SameJournalKeepsShape(plan, old(journal), journal);
      left := if disk.files == files then i else index;
      if s.Ok? && i == index + 1 {
        assert disk.files == Reconciled(files, op, Direction.Rollback);
        left := index;
      }
    }

    method UndoOperations(ghost plan: Plan, ghost i: nat) returns (s: Status, ghost left: nat)
      requires Undoing(plan, i)
      modifies this, fuse
      ensures Recorded()
      ensures Undoing(plan, left) && fuse.Spent(s, ReconcileSteps(|plan.previous| + |plan.staged|))
      ensures mutations + left <= old(mutations) + i
      ensures s.Ok? ==> left == 0
      ensures s.Ok? && disk.journalTemporary ==> old(disk.journalTemporary)
    {
      left := i;
      var index := |journal.operations|;
      ghost var count := index;
      while index > 0
        invariant index <= |journal.operations| == count && left <= index
        invariant Undoing(plan, left) && Recorded()
        invariant mutations + left <= old(mutations) + i
        invariant fuse.Used(Ok, ReconcileSteps(count - index))
        invariant disk.journalTemporary ==> old(disk.journalTemporary)
      {
        index := index - 1;
        s, left := UndoOperation(plan, left, index);
        if !s.Ok? { return; }
      }
      s := Ok;
    }

    /** Rolls an uncommitted restore back, whatever was published and whatever its completion flags say. */
    method RollbackJournal(ghost plan: Plan, ghost outcome: Outcome) returns (s: Status, ghost result: Outcome)
      requires Safe(plan, outcome) && disk.journal == Some(journal)
      requires journal.phase in {StagingPhase, PublishingPhase, RollbackPhase, CommittedPhase}
      modifies this, fuse
      ensures Recorded()
      ensures Safe(plan, result)
      ensures result.New? ==> outcome.New? && !s.Ok?
      ensures s.Ok? ==> Settled(plan, Old, disk) && disk.journalKey.NoKey? && !disk.journalTemporary
      ensures !old(journal).phase.CommittedPhase? ==> Progress(plan)
      ensures fuse.Used(s, RecoverySteps(plan) - 2) && Excused(s)
      ensures SameBlocks()
    {
      result := outcome;
      if journal.phase.StagingPhase? {
        StagingCleanupCovers(plan, journal, disk);
        s := BeginCleanupJournal(StagingDisposition, plan, Old);
        return;
      }
      ghost var i := PrefixOf(plan, outcome);
      s, result := EnterRollback(plan, outcome, i);
      if !s.Ok? { return; }
      s := Unwind(plan, i);
    }

    /** How many renames are in effect while a rename journal is durable. */
    ghost function PrefixOf(plan: Plan, outcome: Outcome): (i: nat)
      requires Safe(plan, outcome) && disk.journal == Some(journal)
      requires journal.phase in {PublishingPhase, RollbackPhase, CommittedPhase}
      reads this
      ensures plan.At(i, disk.files)
    {
      if journal.phase.CommittedPhase? then Target(plan, New) else (var n :| plan.At(n, disk.files); n)
    }

    /** The precheck and the durable decision to roll back. */
    method EnterRollback(ghost plan: Plan, ghost outcome: Outcome, ghost i: nat)
      returns (s: Status, ghost result: Outcome)
      requires Safe(plan, outcome) && disk.journal == Some(journal) && plan.At(i, disk.files)
      requires journal.phase in {PublishingPhase, RollbackPhase, CommittedPhase}
      modifies this, fuse
      ensures Recorded()
      ensures Safe(plan, result)
      ensures result.New? ==> outcome.New? && !s.Ok?
      ensures s.Ok? ==> Undoing(plan, i) && !disk.journalTemporary
      ensures !old(journal).phase.CommittedPhase? ==> Progress(plan)
      ensures fuse.Spent(s, PERSIST_STEPS)
      ensures SameBlocks()
    {
      RollbackIsAccepted(plan, outcome, i);
      var accepted := AssertRollbackOperationsReconciliable();
      if !accepted { return Threw, outcome; }
      s, result := PersistRollback(plan, outcome, i);
    }

    /** In a reachable state the precheck cannot refuse. */
    lemma RollbackIsAccepted(plan: Plan, outcome: Outcome, i: nat)
      requires Safe(plan, outcome) && disk.journal == Some(journal) && plan.At(i, disk.files)
      requires journal.phase in {PublishingPhase, RollbackPhase, CommittedPhase}
      ensures Reconciliable(disk.files, journal.operations, journal.stagedHashes)
    {
      PrefixStatesAreReconciliable(plan, i, disk.files);
      ReconciliableIgnoresCompletion(disk.files, plan.Operations(), journal.operations, plan.staged);
    }

    method PersistRollback(ghost plan: Plan, ghost outcome: Outcome, ghost i: nat)
      returns (s: Status, ghost result: Outcome)
      requires Safe(plan, outcome) && disk.journal == Some(journal) && plan.At(i, disk.files)
      requires journal.phase in {PublishingPhase, RollbackPhase, CommittedPhase}
      modifies this, fuse
      ensures Recorded()
      ensures Safe(plan, result)
      ensures result.New? ==> outcome.New? && !s.Ok?
      ensures s.Ok? ==> Undoing(plan, i) && !disk.journalTemporary
      ensures !old(journal).phase.CommittedPhase? ==> Progress(plan)
      ensures fuse.Spent(s, PERSIST_STEPS)
      ensures SameBlocks()
    {
      result := outcome;
      InEffectAt(plan, i, disk.files, |plan.Operations()|);
      journal := journal.(phase := RollbackPhase);
      s := PersistJournal();
      if disk.journal == Some(journal) {
        result := Old;
        assert Undoing(plan, i);
        UndoingIsSafe(plan, i);
      }
    }

    /** The reverse loop and the cleanup behind it. */
    method Unwind(ghost plan: Plan, ghost i: nat) returns (s: Status)
      requires Undoing(plan, i)
      modifies this, fuse
      ensures Recorded()
      ensures Safe(plan, Old) && Progress(plan)
      ensures s.Ok? ==> Settled(plan, Old, disk) && disk.journalKey.NoKey? && !disk.journalTemporary
      ensures fuse.Used(s, ReconcileSteps(|plan.previous| + |plan.staged|) + CleanupSteps(plan)) && Excused(s)
      ensures SameBlocks()
    {
      UndoingIsSafe(plan, i);
      PrefixHasNoStrays(plan, i, disk.files);
      ghost var left;
      s, left := UndoOperations(plan, i);
      UndoingIsSafe(plan, left);
      PrefixHasNoStrays(plan, left, disk.files);
      if !s.Ok? { return; }
      RollbackCleanupCovers(plan, journal, disk);
      RollbackCleanupWork(plan, journal, disk.files);
      s := BeginCleanupJournal(RollbackDisposition, plan, Old);
    }

    /** A committed restore goes forward only. */
    method FinishCommittedJournal(ghost plan: Plan) returns (s: Status)
      requires Safe(plan, New) && disk.journal == Some(journal) && journal.phase.CommittedPhase?
      modifies this, fuse
      ensures Recorded()
      ensures Safe(plan, New) && Progress(plan)
      ensures s.Ok? ==> Settled(plan, New, disk) && disk.journalKey.NoKey? && !disk.journalTemporary
      ensures fuse.Used(s, CleanupSteps(plan)) && Excused(s)
      ensures SameBlocks()
    {
      PublishedContents(plan, disk.files);
      var index := 0;
      while index < |journal.stagedHashes| {
        var entry := journal.stagedHashes[index];
        if Live(entry.name) !in disk.files || disk.files[Live(entry.name)] != entry.hash { return Threw; }
        index := index + 1;
      }
      CommittedCleanupCovers(plan, journal, disk);
      PrefixHasNoStrays(plan, Target(plan, New), disk.files);
      s := BeginCleanupJournal(CommittedDisposition, plan, New);
    }

    /** A temporary journal is never read; recovery removes it first. */
    method RemoveTemporaryJournal(ghost plan: Plan, ghost outcome: Outcome) returns (s: Status)
      requires Safe(plan, outcome)
      modifies this`disk, fuse
      ensures Safe(plan, outcome) && fuse.Spent(s, 1)
      ensures disk == old(disk).(journalTemporary := disk.journalTemporary) && (s.Ok? ==> !disk.journalTemporary)
    {
      if !disk.journalTemporary { return Ok; }
      s := fuse.Primitive();
      if s.Ok? { disk := disk.(journalTemporary := false); }
    }

    /** Recovery of whatever an earlier process left behind. */
    method RecoverInterruptedManagedRestore(ghost plan: Plan, ghost outcome: Outcome) returns (s: Status)
      requires Safe(plan, outcome)
      modifies this, fuse
      ensures Recorded()
      ensures Safe(plan, outcome) && Progress(plan)
      ensures s.Ok? ==> Finished(plan, outcome, disk)
      ensures fuse.Used(s, RecoverySteps(plan)) && Excused(s)
      ensures SameBlocks()
    {
      s := RemoveTemporaryJournal(plan, outcome);
      if !s.Ok? { return; }
      if disk.journal.None? {
        s := RemoveOrphanKey(plan, outcome);
      } else {
        s := ResumeJournal(plan, outcome);
      }
    }

    /** A key without a journal belongs to a restore that never began, or that already finished. */
    method RemoveOrphanKey(ghost plan: Plan, ghost outcome: Outcome) returns (s: Status)
      requires Safe(plan, outcome) && disk.journal.None? && !disk.journalTemporary
      modifies this`disk, fuse, this`mutations
      ensures Safe(plan, outcome) && Progress(plan)
      ensures s.Ok? ==> Finished(plan, outcome, disk)
      ensures fuse.Used(s, 2) && Excused(s)
      ensures SameBlocks()
    {
      if disk.journalKey.EmptyKey? { return Threw; }
      if disk.journalKey.NoKey? { return Ok; }
      s := RemoveKey(plan, outcome);
    }

    /** Acts on the one durable journal. */
    method ResumeJournal(ghost plan: Plan, ghost outcome: Outcome) returns (s: Status)
      requires Safe(plan, outcome) && disk.journal.Some? && !disk.journalTemporary
      modifies this, fuse
      ensures Recorded()
      ensures Safe(plan, outcome) && Progress(plan)
      ensures s.Ok? ==> Finished(plan, outcome, disk)
      ensures fuse.Used(s, RecoverySteps(plan) - 2) && Excused(s)
      ensures SameBlocks()
    {
      journal := disk.journal.value;
      if !HasExactJournalOperations(journal) || !disk.journalKey.WholeKey? { return Threw; }
      if journal.phase.CommittedPhase? {
        s := FinishCommittedJournal(plan);
      } else if journal.phase in {StagingCleanup, RollbackCleanup, CommittedCleanup} {
        s := FinishCleanupJournal(plan, outcome);
      } else {
        ghost var result;
        s, result := RollbackJournal(plan, outcome);
      }
    }
  }

  lemma ReconciliableIgnoresCompletion(files: Files, ops: seq<Operation>, other: seq<Operation>, staged: seq<Entry>)
    requires SameOperations(other, ops) && Reconciliable(files, ops, staged)
    ensures Reconciliable(files, other, staged)
  {
    forall i | 0 <= i < |other| ensures OperationReconciliable(files, other[i], staged) {
      assert Forget(other[i]) == Forget(ops[i]);
      assert OperationReconciliable(files, ops[i], staged);
    }
  }

  /** Full publication leaves every staged file under its live name. */
  lemma PublishedContents(plan: Plan, files: Files)
    requires plan.Valid() && plan.At(Target(plan, New), files)
    ensures forall i :: 0 <= i < |plan.staged| ==>
              Content(files, Live(plan.staged[i].name)) == Some(plan.staged[i].hash)
  {
    forall i | 0 <= i < |plan.staged|
      ensures Content(files, Live(plan.staged[i].name)) == Some(plan.staged[i].hash)
    {
      PublicationInEffect(plan, Target(plan, New), i);
    }
  }

  /** The journal phase from which each cleanup is begun. */
  predicate Precedes(phase: Phase, disposition: Disposition) {
    match disposition
    case StagingDisposition => phase.StagingPhase?
    case RollbackDisposition => phase.RollbackPhase?
    case CommittedDisposition => phase.CommittedPhase?
  }

  lemma InstalledCleanup(plan: Plan, journal: Journal, disposition: Disposition)
    requires JournalFor(plan, journal) && Precedes(journal.phase, disposition)
    ensures var cleanup := CleanupOperations(journal, disposition);
            JournalFor(plan, journal.(operations := cleanup, phase := CleanupPhase(disposition)))
  {
  }

  /** Once the list is worked off, only stray entries can keep a directory from being removed. */
  lemma EmptyDirectories(plan: Plan, outcome: Outcome, ops: seq<Operation>, disk: Disk)
    requires CleanupState(plan, outcome, ops, disk) && Gone(ops, |ops|, disk.files)
    ensures forall leaf :: Staging(leaf) in disk.files ==> Stray(leaf)
    ensures (forall leaf :: Staging(leaf) !in disk.files) ==>
              CleanupState(plan, outcome, ops, disk.(stagingDirectory := false))
    ensures !KeepsPrevious(plan, outcome) ==>
              (forall name :: Previous(name) !in disk.files) &&
              CleanupState(plan, outcome, ops, disk.(previousDirectory := false))
  {
  }

  /** Nothing is left of a transaction once its list is worked off and its directories are gone. */
  lemma CleanedSettles(plan: Plan, outcome: Outcome, journal: Journal, disk: Disk)
    requires CleanupState(plan, outcome, journal.operations, disk)
    requires Gone(journal.operations, |journal.operations|, disk.files)
    requires !disk.stagingDirectory && (KeepsPrevious(plan, outcome) || !disk.previousDirectory)
    ensures Settled(plan, outcome, disk.(journal := None))
  {
  }

  /** The first `count` entries of an unlink list no longer exist. */
  ghost predicate Gone(ops: seq<Operation>, count: nat, files: Files) {
    count <= |ops| && forall i :: 0 <= i < count ==> ops[i].Unlink? ==> ops[i].path !in files
  }

  ghost predicate GoneAt(ops: seq<Operation>, index: nat, files: Files) {
    index < |ops| && (ops[index].Unlink? ==> ops[index].path !in files)
  }

  lemma GoneFurther(ops: seq<Operation>, ops': seq<Operation>, index: nat, files: Files, files': Files)
    requires index < |ops| && SameOperations(ops', ops) && Gone(ops, index, files)
    requires forall path :: path in files' ==> path in files
    requires GoneAt(ops, index, files')
    ensures Gone(ops', index + 1, files')
  {
    forall i | 0 <= i <= index && ops'[i].Unlink? ensures ops'[i].path !in files' {
      assert Forget(ops'[i]) == Forget(ops[i]);
    }
  }

  /** What a durable cleanup journal and its copy in memory have in common. */
  lemma CleanupLoaded(plan: Plan, outcome: Outcome, disk: Disk, journal: Journal)
    requires HeadsFor(plan, outcome, disk) && disk.journal.Some? && SameJournal(disk.journal.value, journal)
    requires journal.phase in {StagingCleanup, RollbackCleanup, CommittedCleanup}
    ensures CleanupState(plan, outcome, journal.operations, disk)
    ensures Remaining(journal.operations, disk.files) == Remaining(disk.journal.value.operations, disk.files)
    ensures |journal.operations| <= SCRATCH_FILES + 3 * |plan.staged| + |plan.previous|
    ensures JournalFor(plan, journal)
  {
    CleanupStateIgnoresCompletion(plan, outcome, disk.journal.value.operations, journal.operations, disk);
    RemainingIgnoresCompletion(disk.journal.value.operations, journal.operations, disk.files);
    SameJournalKeepsShape(plan, disk.journal.value, journal);
  }

  lemma SameJournalKeepsShape(plan: Plan, left: Journal, right: Journal)
    requires SameJournal(left, right) && JournalFor(plan, left)
    ensures JournalFor(plan, right)
  {
    assert ExpectedOperations(left) == ExpectedOperations(right);
    forall i | 0 <= i < |right.operations|
      ensures Forget(right.operations[i]) == Forget(ExpectedOperations(right)[i])
    {
      assert Forget(left.operations[i]) == Forget(right.operations[i]);
    }
  }

  /** A disk in a cleanup state is safe, and its remaining work is what the list still names. */
  lemma CleanupSafe(plan: Plan, outcome: Outcome, disk: Disk, journal: Journal)
    requires plan.Valid() && disk.journal.Some? && disk.journalKey.WholeKey? && SameJournal(disk.journal.value, journal)
    requires journal.phase in {StagingCleanup, RollbackCleanup, CommittedCleanup}
    requires outcome.New? <==> journal.phase.CommittedCleanup?
    requires JournalFor(plan, journal) && CleanupState(plan, outcome, journal.operations, disk)
    requires journal.phase.StagingCleanup? || Strays(disk.files) == {}
    ensures HeadsFor(plan, outcome, disk)
    ensures Work(plan, disk) == 2 + DirectoryWork(disk) + Remaining(journal.operations, disk.files)
  {
    SameOperationsSymmetric(disk.journal.value.operations, journal.operations);
    CleanupStateIgnoresCompletion(plan, outcome, journal.operations, disk.journal.value.operations, disk);
    RemainingIgnoresCompletion(disk.journal.value.operations, journal.operations, disk.files);
    SameJournalKeepsShape(plan, journal, disk.journal.value);
  }

  lemma SameOperationsSymmetric(left: seq<Operation>, right: seq<Operation>)
    requires SameOperations(left, right)
    ensures SameOperations(right, left)
  {
  }

  lemma SameJournalSymmetric(left: Journal, right: Journal)
    requires SameJournal(left, right)
    ensures SameJournal(right, left)
  {
  }
}
