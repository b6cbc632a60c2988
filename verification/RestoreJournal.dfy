/**
 The managed-restore journal, the cleanup lists it carries, and what every durable state of a restore looks
 like: `HeadsFor(plan, outcome, disk)` holds of a disk whose completed recovery leaves `outcome`.
*/
module RestoreJournal {
  import opened Options
  import opened VaultFiles
  import opened Rollback

  datatype Phase =
    | StagingPhase
    | PublishingPhase
    | RollbackPhase
    | CommittedPhase
    | StagingCleanup
    | RollbackCleanup
    | CommittedCleanup

  datatype Journal = Journal(
    phase: Phase,
    healthy: bool,
    stagedHashes: seq<Entry>,
    previousHashes: seq<Entry>,
    operations: seq<Operation>)

  /** The transaction key: it is created empty, and then written. */
  datatype KeyFile = NoKey | EmptyKey | WholeKey

  /** Everything a restore keeps in the vault directory. */
  datatype Disk = Disk(
    files: Files,
    journal: Option<Journal>,
    journalTemporary: bool,
    journalKey: KeyFile,
    stagingDirectory: bool,
    previousDirectory: bool)

  datatype Outcome = Old | New

  datatype Disposition = StagingDisposition | RollbackDisposition | CommittedDisposition

  // The classification copies come first, the portable SQLite sidecars after them.
  const CLASSIFICATION_FILES: nat := 3
  const SCRATCH_FILES: nat := 6

  function Unverified(path: Path): Operation { Unlink(path, 0, true, false) }

  function ScratchUnlinks(): seq<Operation> {
    seq(SCRATCH_FILES, i requires 0 <= i < SCRATCH_FILES => Unverified(Staging(Scratch(i))))
  }

  function StagingUnlinks(entries: seq<Entry>): (ops: seq<Operation>)
    ensures |ops| == 3 * |entries|
  {
    if entries == [] then [] else
      [Unverified(Staging(Partial(entries[0].name))),
       Unverified(Staging(Portable(entries[0].name))),
       Unverified(Staging(Plain(entries[0].name)))] + StagingUnlinks(entries[1..])
  }

  function PartialUnlinks(entries: seq<Entry>): (ops: seq<Operation>)
    ensures |ops| == |entries|
  {
    seq(|entries|, i requires 0 <= i < |entries| => Unverified(Staging(Partial(entries[i].name))))
  }

  function StagedUnlinks(entries: seq<Entry>): (ops: seq<Operation>)
    ensures |ops| == |entries|
  {
    seq(|entries|, i requires 0 <= i < |entries| =>
      Unlink(Staging(Plain(entries[i].name)), entries[i].hash, false, false))
  }

  function PreviousUnlinks(entries: seq<Entry>): (ops: seq<Operation>)
    ensures |ops| == |entries|
  {
    seq(|entries|, i requires 0 <= i < |entries| =>
      Unlink(Previous(entries[i].name), entries[i].hash, false, false))
  }

  function CleanupOperations(journal: Journal, disposition: Disposition): (ops: seq<Operation>)
    ensures |ops| <= SCRATCH_FILES + 3 * |journal.stagedHashes| + |journal.previousHashes|
  {
    if disposition.StagingDisposition? then ScratchUnlinks() + StagingUnlinks(journal.stagedHashes)
    else PartialUnlinks(journal.stagedHashes) + StagedUnlinks(journal.stagedHashes) +
         (if disposition.CommittedDisposition? && journal.healthy then PreviousUnlinks(journal.previousHashes) else [])
  }

  function CleanupPhase(disposition: Disposition): Phase {
    match disposition
    case StagingDisposition => StagingCleanup
    case RollbackDisposition => RollbackCleanup
    case CommittedDisposition => CommittedCleanup
  }

  /** The operation list a journal must carry, apart from completion flags, to be accepted when it is read. */
  function ExpectedOperations(journal: Journal): seq<Operation> {
    match journal.phase
    case StagingPhase => []
    case StagingCleanup => CleanupOperations(journal, StagingDisposition)
    case RollbackCleanup => CleanupOperations(journal, RollbackDisposition)
    case CommittedCleanup => CleanupOperations(journal, CommittedDisposition)
    case _ => RenameOperations(journal.previousHashes, journal.stagedHashes)
  }

  predicate HasExactJournalOperations(journal: Journal) {
    SameOperations(journal.operations, ExpectedOperations(journal))
  }

  /** Two journals that differ in completion flags only. */
  ghost predicate SameJournal(left: Journal, right: Journal) {
    left.(operations := []) == right.(operations := []) && SameOperations(left.operations, right.operations)
  }

  // ---- what a disk of this restore can be -------------------------------------------------------------------------

  function Target(plan: Plan, outcome: Outcome): nat {
    if outcome.New? then |plan.previous| + |plan.staged| else 0
  }

  /** Live names hold exactly the old inventory or exactly the staged set; unrelated files are untouched. */
  ghost predicate LiveIs(plan: Plan, outcome: Outcome, files: Files) {
    forall path: Path :: path.Live? || path.Unrelated? ==>
      Content(files, path) == plan.ContentAt(Target(plan, outcome), path)
  }

  /** The previous directory outlives only a committed restore of a damaged vault. */
  predicate KeepsPrevious(plan: Plan, outcome: Outcome) {
    outcome.New? && !plan.healthy
  }

  function LeafName(leaf: Leaf): Name
    requires !leaf.Scratch? && !Stray(leaf)
  {
    leaf.name
  }

  predicate StagingLeaf(entries: seq<Entry>, leaf: Leaf) {
    if leaf.Scratch? then leaf.index < SCRATCH_FILES
    else Stray(leaf) || HashOf(entries, LeafName(leaf)).Some?
  }

  ghost predicate StagingState(plan: Plan, disk: Disk) {
    && LiveIs(plan, Old, disk.files)
    && (forall name :: Previous(name) !in disk.files)
    && (forall leaf :: Staging(leaf) in disk.files ==> disk.stagingDirectory && StagingLeaf(plan.staged, leaf))
  }

  ghost predicate Listed(ops: seq<Operation>, path: Path) {
    exists i :: 0 <= i < |ops| && ops[i].Unlink? && ops[i].path == path
  }

  /** A cleanup list never refuses an entry, and covers whatever has to disappear but stray entries. */
  ghost predicate CleanupState(plan: Plan, outcome: Outcome, ops: seq<Operation>, disk: Disk) {
    && LiveIs(plan, outcome, disk.files)
    && (forall leaf :: Staging(leaf) in disk.files ==>
          disk.stagingDirectory && (Stray(leaf) || Listed(ops, Staging(leaf))))
    && (if KeepsPrevious(plan, outcome)
        then disk.previousDirectory && forall name :: Content(disk.files, Previous(name)) == HashOf(plan.previous, name)
        else forall name :: Previous(name) in disk.files ==> disk.previousDirectory && Listed(ops, Previous(name)))
    && (forall i :: 0 <= i < |ops| ==> CleanupOperation(plan, outcome, ops[i], disk.files))
  }

  ghost predicate CleanupOperation(plan: Plan, outcome: Outcome, op: Operation, files: Files) {
    && op.Unlink?
    && ((op.path.Staging? && !Stray(op.path.leaf)) || (op.path.Previous? && !KeepsPrevious(plan, outcome)))
    && (op.unverified || Content(files, op.path) == None || Content(files, op.path) == Some(op.hash))
  }

  ghost predicate SameNames(left: seq<Entry>, right: seq<Entry>) {
    |left| == |right| && forall i :: 0 <= i < |left| ==> left[i].name == right[i].name
  }

  ghost predicate JournalFor(plan: Plan, journal: Journal) {
    && HasExactJournalOperations(journal)
    && journal.previousHashes == plan.previous
    && SameNames(journal.stagedHashes, plan.staged)
    && (!journal.phase.StagingPhase? && !journal.phase.StagingCleanup? ==>
          journal.stagedHashes == plan.staged && journal.healthy == plan.healthy)
  }

  ghost predicate PhaseState(plan: Plan, outcome: Outcome, journal: Journal, disk: Disk) {
    match journal.phase
    case StagingPhase => outcome.Old? && StagingState(plan, disk)
    case PublishingPhase =>
      outcome.Old? && disk.stagingDirectory && disk.previousDirectory && exists i :: plan.At(i, disk.files)
    case RollbackPhase =>
      outcome.Old? && disk.stagingDirectory && disk.previousDirectory && exists i :: plan.At(i, disk.files)
    case CommittedPhase =>
      outcome.New? && disk.stagingDirectory && disk.previousDirectory && plan.At(Target(plan, New), disk.files)
    case StagingCleanup => outcome.Old? && CleanupState(plan, Old, journal.operations, disk)
    case RollbackCleanup =>
      outcome.Old? && CleanupState(plan, Old, journal.operations, disk) && Strays(disk.files) == {}
    case CommittedCleanup =>
      outcome.New? && CleanupState(plan, New, journal.operations, disk) && Strays(disk.files) == {}
  }

  /** The directory once no journal is left. */
  ghost predicate Settled(plan: Plan, outcome: Outcome, disk: Disk) {
    && disk.journal.None?
    && LiveIs(plan, outcome, disk.files)
    && (forall leaf :: Staging(leaf) !in disk.files)
    && !disk.stagingDirectory
    && disk.previousDirectory == KeepsPrevious(plan, outcome)
    && (forall name :: Content(disk.files, Previous(name)) ==
                       if KeepsPrevious(plan, outcome) then HashOf(plan.previous, name) else None)
  }

  ghost predicate HeadsFor(plan: Plan, outcome: Outcome, disk: Disk) {
    plan.Valid() &&
    match disk.journal
    case None => Settled(plan, outcome, disk)
    case Some(journal) =>
      disk.journalKey.WholeKey? && JournalFor(plan, journal) && PhaseState(plan, outcome, journal, disk)
  }

  /** Recovery has nothing left to do: no journal, no temporary journal, no journal key, nothing staged. */
  ghost predicate Finished(plan: Plan, outcome: Outcome, disk: Disk) {
    Settled(plan, outcome, disk) && !disk.journalTemporary && disk.journalKey.NoKey?
  }

  /** What recovery refuses to deal with: a staging entry that no list names, or a key that was never written. */
  predicate Blocked(disk: Disk) {
    Strays(disk.files) != {} || disk.journalKey.EmptyKey?
  }

  /** Between staging and its end nothing but staged files lies in the staging directory. */
  lemma PrefixHasNoStrays(plan: Plan, i: nat, files: Files)
    requires plan.At(i, files)
    ensures Strays(files) == {}
  {
    forall leaf | Stray(leaf) ensures Staging(leaf) !in files {
      assert Content(files, Staging(leaf)) == plan.ContentAt(i, Staging(leaf));
    }
  }

  // ---- the lists cover the states in which they are installed -----------------------------------------------------

  lemma {:induction false} StagingUnlinksList(entries: seq<Entry>, name: Name)
    requires HashOf(entries, name).Some?
    ensures Listed(StagingUnlinks(entries), Staging(Partial(name)))
    ensures Listed(StagingUnlinks(entries), Staging(Portable(name)))
    ensures Listed(StagingUnlinks(entries), Staging(Plain(name)))
  {
    var ops := StagingUnlinks(entries);
    if entries[0].name == name {
      assert ops[0].path == Staging(Partial(name)) && ops[1].path == Staging(Portable(name));
      assert ops[2].path == Staging(Plain(name));
    } else {
      StagingUnlinksList(entries[1..], name);
      var rest := StagingUnlinks(entries[1..]);
      assert forall i :: 0 <= i < |rest| ==> ops[i + 3] == rest[i];
      forall leaf | Listed(rest, Staging(leaf)) ensures Listed(ops, Staging(leaf)) {
        var i :| 0 <= i < |rest| && rest[i].Unlink? && rest[i].path == Staging(leaf);
        assert ops[i + 3].path == Staging(leaf);
      }
    }
  }

  lemma {:induction false} StagingUnlinksAreUnverified(entries: seq<Entry>)
    ensures forall i :: 0 <= i < |StagingUnlinks(entries)| ==>
              var op := StagingUnlinks(entries)[i];
              op.Unlink? && op.path.Staging? && !Stray(op.path.leaf) && op.unverified
  {
    if entries == [] {
    } else {
      StagingUnlinksAreUnverified(entries[1..]);
    }
  }

  /** Staging cleanup covers whatever an interrupted staging left, but for stray entries. */
  lemma StagingCleanupCovers(plan: Plan, journal: Journal, disk: Disk)
    requires plan.Valid() && SameNames(journal.stagedHashes, plan.staged) && StagingState(plan, disk)
    ensures CleanupState(plan, Old, CleanupOperations(journal, StagingDisposition), disk)
  {
    var ops := CleanupOperations(journal, StagingDisposition);
    StagingUnlinksAreUnverified(journal.stagedHashes);
    var tail := StagingUnlinks(journal.stagedHashes);
    assert forall i :: 0 <= i < |tail| ==> ops[i + SCRATCH_FILES] == tail[i];
    forall leaf | Staging(leaf) in disk.files && !Stray(leaf) ensures Listed(ops, Staging(leaf)) {
      if leaf.Scratch? {
        assert ops[leaf.index].path == Staging(leaf);
      } else {
        HashOfNone(journal.stagedHashes, LeafName(leaf));
        HashOfNone(plan.staged, LeafName(leaf));
        StagingUnlinksList(journal.stagedHashes, LeafName(leaf));
        var i :| 0 <= i < |tail| && tail[i].Unlink? && tail[i].path == Staging(leaf);
        assert ops[i + SCRATCH_FILES].path == Staging(leaf);
      }
    }
  }

  /** Rollback cleanup covers the directory once every rename is undone. */
  lemma RollbackCleanupCovers(plan: Plan, journal: Journal, disk: Disk)
    requires plan.Valid() && journal.stagedHashes == plan.staged && plan.At(0, disk.files) && disk.stagingDirectory
    ensures CleanupState(plan, Old, CleanupOperations(journal, RollbackDisposition), disk)
  {
    var ops := CleanupOperations(journal, RollbackDisposition);
    var k := |plan.staged|;
    assert plan.staged[0..] == plan.staged && plan.previous[0..] == plan.previous;
    forall leaf | Staging(leaf) in disk.files ensures Listed(ops, Staging(leaf)) {
      assert Content(disk.files, Staging(leaf)) == plan.ContentAt(0, Staging(leaf));
      HashOfNone(plan.staged, LeafName(leaf));
      var i :| 0 <= i < k && plan.staged[i].name == LeafName(leaf);
      assert ops[k + i].path == Staging(leaf);
    }
    forall name ensures Previous(name) !in disk.files {
      assert Content(disk.files, Previous(name)) == plan.ContentAt(0, Previous(name));
    }
    forall i | 0 <= i < |ops| ensures CleanupOperation(plan, Old, ops[i], disk.files) {
      if i >= k {
        HashOfAt(plan.staged, i - k);
        assert Content(disk.files, ops[i].path) == plan.ContentAt(0, ops[i].path);
      }
    }
  }

  /** Committed cleanup covers the fully published directory. */
  lemma CommittedCleanupCovers(plan: Plan, journal: Journal, disk: Disk)
    requires plan.Valid() && journal.stagedHashes == plan.staged && journal.previousHashes == plan.previous
    requires journal.healthy == plan.healthy
    requires plan.At(Target(plan, New), disk.files) && disk.stagingDirectory && disk.previousDirectory
    ensures CleanupState(plan, New, CleanupOperations(journal, CommittedDisposition), disk)
  {
    var ops := CleanupOperations(journal, CommittedDisposition);
    var k, m := |plan.staged|, |plan.previous|;
    assert plan.staged[k..] == [] && plan.previous[..m] == plan.previous;
    forall leaf ensures Staging(leaf) !in disk.files {
      assert Content(disk.files, Staging(leaf)) == plan.ContentAt(m + k, Staging(leaf));
    }
    forall name ensures Content(disk.files, Previous(name)) == HashOf(plan.previous, name) {
      assert Content(disk.files, Previous(name)) == plan.ContentAt(m + k, Previous(name));
    }
    forall name | plan.healthy && Previous(name) in disk.files ensures Listed(ops, Previous(name)) {
      assert Content(disk.files, Previous(name)) == HashOf(plan.previous, name);
      HashOfNone(plan.previous, name);
      var i :| 0 <= i < m && plan.previous[i].name == name;
      assert ops[2 * k + i].path == Previous(name);
    }
    forall i | 0 <= i < |ops| ensures CleanupOperation(plan, New, ops[i], disk.files) {
      if 2 * k <= i { HashOfAt(plan.previous, i - 2 * k); }
    }
  }
}
