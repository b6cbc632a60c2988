/**
 How much a recovery still has to do. `Work(plan, disk)` counts the vault-file renames and unlinks, directory
 removals, and the final removal of journal and journal key that lie ahead of a disk; completion flags do not
 enter it. Writing a journal is not counted.
*/
module RestoreWork {
  import opened VaultFiles
  import opened Rollback
  import opened RestoreJournal

  /** Paths of an unlink list that still exist. */
  function Remaining(ops: seq<Operation>, files: Files): nat {
    if ops == [] then 0
    else (if ops[0].Unlink? && ops[0].path in files then 1 else 0) + Remaining(ops[1..], files)
  }

  lemma {:induction false} RemainingAfterUnlink(ops: seq<Operation>, files: Files, path: Path)
    ensures Remaining(ops, files - {path}) <= Remaining(ops, files)
    ensures path in files && Listed(ops, path) ==> Remaining(ops, files - {path}) < Remaining(ops, files)
  {
    if ops == [] {
    } else {
      RemainingAfterUnlink(ops[1..], files, path);
      if Listed(ops, path) && !(ops[0].Unlink? && ops[0].path == path) {
        var i :| 0 <= i < |ops| && ops[i].Unlink? && ops[i].path == path;
        assert ops[1..][i - 1] == ops[i];
      }
    }
  }

  lemma {:induction false} RemainingIgnoresCompletion(ops: seq<Operation>, other: seq<Operation>, files: Files)
    requires SameOperations(ops, other)
    ensures Remaining(ops, files) == Remaining(other, files)
  {
    if ops == [] {
    } else {
      assert Forget(ops[0]) == Forget(other[0]);
      forall i | 0 <= i < |ops[1..]| ensures Forget(ops[1..][i]) == Forget(other[1..][i]) {
        assert Forget(ops[i + 1]) == Forget(other[i + 1]);
      }
      RemainingIgnoresCompletion(ops[1..], other[1..], files);
    }
  }

  lemma {:induction false} RemainingOfConcat(left: seq<Operation>, right: seq<Operation>, files: Files)
    ensures Remaining(left + right, files) == Remaining(left, files) + Remaining(right, files)
  {
    if left == [] {
      assert left + right == right;
    } else {
      assert (left + right)[1..] == left[1..] + right;
      RemainingOfConcat(left[1..], right, files);
    }
  }

  lemma {:induction false} RemainingBounds(ops: seq<Operation>, files: Files)
    ensures Remaining(ops, files) <= |ops|
    ensures (forall i :: 0 <= i < |ops| && ops[i].Unlink? ==> ops[i].path !in files) ==> Remaining(ops, files) == 0
  {
    if ops == [] {
    } else {
      RemainingBounds(ops[1..], files);
      if forall i :: 0 <= i < |ops| && ops[i].Unlink? ==> ops[i].path !in files {
        forall i | 0 <= i < |ops[1..]| && ops[1..][i].Unlink? ensures ops[1..][i].path !in files {
          assert ops[1..][i] == ops[i + 1];
        }
      }
    }
  }

  /** Whether a rename is in effect can be read off one of its two paths. */
  predicate RenameInEffect(op: Operation, files: Files)
    requires op.Rename?
  {
    if op.target.Previous? then op.target in files else op.source !in files
  }

  function InEffect(plan: Plan, files: Files, count: nat): nat
    requires count <= |plan.Operations()|
  {
    if count == 0 then 0
    else (if RenameInEffect(plan.Operations()[count - 1], files) then 1 else 0) + InEffect(plan, files, count - 1)
  }

  /** In the state after `i` renames, exactly the first `i` read as in effect. */
  lemma RenameInEffectAt(plan: Plan, i: nat, files: Files, k: nat)
    requires plan.Valid() && plan.At(i, files) && k < |plan.Operations()|
    ensures plan.Operations()[k].Rename? && (RenameInEffect(plan.Operations()[k], files) <==> k < i)
  {
    var op := plan.Operations()[k];
    assert Content(files, op.source) == plan.ContentAt(i, op.source);
    assert Content(files, op.target) == plan.ContentAt(i, op.target);
    if k < |plan.previous| {
      if i <= k { PreservationPending(plan, i, k); } else { PreservationInEffect(plan, i, k); }
    } else {
      var j := k - |plan.previous|;
      if i <= k { PublicationPending(plan, i, j); } else { PublicationInEffect(plan, i, j); }
    }
  }

  lemma {:induction false} InEffectAt(plan: Plan, i: nat, files: Files, count: nat)
    requires plan.Valid() && plan.At(i, files) && count <= |plan.Operations()|
    ensures InEffect(plan, files, count) == if count < i then count else i
    decreases count
  {
    if count == 0 {
    } else {
      InEffectAt(plan, i, files, count - 1);
      RenameInEffectAt(plan, i, files, count - 1);
    }
  }

  function One(condition: bool): nat { if condition then 1 else 0 }

  function FileWork(plan: Plan, journal: Journal, files: Files): nat {
    match journal.phase
    case StagingPhase => Remaining(CleanupOperations(journal, StagingDisposition), files)
    case PublishingPhase => InEffect(plan, files, |plan.Operations()|) + 2 * |plan.staged|
    case RollbackPhase => InEffect(plan, files, |plan.Operations()|) + 2 * |plan.staged|
    case CommittedPhase => Remaining(CleanupOperations(journal, CommittedDisposition), files)
    case _ => Remaining(journal.operations, files)
  }

  function DirectoryWork(disk: Disk): nat {
    One(disk.stagingDirectory) + One(disk.previousDirectory)
  }

  function Work(plan: Plan, disk: Disk): nat {
    One(!disk.journalKey.NoKey?) +
    match disk.journal
    case None => 0
    case Some(journal) => 1 + DirectoryWork(disk) + FileWork(plan, journal, disk.files)
  }

  // ---- single steps -----------------------------------------------------------------------------------------------

  /** One entry of a cleanup list: never refused, and gone afterwards. */
  lemma CleanupStep(plan: Plan, outcome: Outcome, ops: seq<Operation>, i: nat, disk: Disk)
    requires i < |ops| && CleanupState(plan, outcome, ops, disk)
    ensures Decide(disk.files, ops[i], Forward) in {AlreadyDone, Mutate}
    ensures var files := Reconciled(disk.files, ops[i], Forward);
            && CleanupState(plan, outcome, ops, disk.(files := files))
            && ops[i].path !in files
            && (forall path :: path in files ==> path in disk.files) && Strays(files) == Strays(disk.files)
            && Remaining(ops, files) <= Remaining(ops, disk.files)
            && (Decide(disk.files, ops[i], Forward).Mutate? ==> Remaining(ops, files) < Remaining(ops, disk.files))
  {
    var op := ops[i];
    assert CleanupOperation(plan, outcome, op, disk.files);
    var files := Reconciled(disk.files, op, Forward);
    RemainingAfterUnlink(ops, disk.files, op.path);
    assert forall path :: path != op.path ==> Content(files, path) == Content(disk.files, path);
    forall j | 0 <= j < |ops| ensures CleanupOperation(plan, outcome, ops[j], files) {
      assert CleanupOperation(plan, outcome, ops[j], disk.files);
    }
  }

  /** A cleanup state speaks about operations up to their completion flags. */
  lemma CleanupStateIgnoresCompletion(plan: Plan, outcome: Outcome, ops: seq<Operation>, other: seq<Operation>,
                                      disk: Disk)
    requires SameOperations(ops, other) && CleanupState(plan, outcome, ops, disk)
    ensures CleanupState(plan, outcome, other, disk)
  {
    forall path | Listed(ops, path) ensures Listed(other, path) {
      var i :| 0 <= i < |ops| && ops[i].Unlink? && ops[i].path == path;
      assert Forget(ops[i]) == Forget(other[i]);
      assert other[i].path == path;
    }
    forall i | 0 <= i < |other| ensures CleanupOperation(plan, outcome, other[i], disk.files) {
      assert CleanupOperation(plan, outcome, ops[i], disk.files);
      assert Forget(ops[i]) == Forget(other[i]);
    }
  }

  /** Installing the cleanup list after rollback does not add work. */
  lemma RollbackCleanupWork(plan: Plan, journal: Journal, files: Files)
    requires plan.Valid() && journal.stagedHashes == plan.staged
    ensures Remaining(CleanupOperations(journal, RollbackDisposition), files) <= 2 * |plan.staged|
  {
    RemainingBounds(CleanupOperations(journal, RollbackDisposition), files);
  }

  /** The work ahead of any disk of a restore is bounded by the sizes of its two inventories. */
  function WorkBound(plan: Plan): nat {
    4 + SCRATCH_FILES + 3 * |plan.staged| + |plan.previous|
  }

  lemma WorkIsBounded(plan: Plan, outcome: Outcome, disk: Disk)
    requires HeadsFor(plan, outcome, disk)
    ensures Work(plan, disk) <= WorkBound(plan)
  {
    if disk.journal.Some? {
      var journal := disk.journal.value;
      RemainingBounds(journal.operations, disk.files);
      RemainingBounds(CleanupOperations(journal, StagingDisposition), disk.files);
      RemainingBounds(CleanupOperations(journal, CommittedDisposition), disk.files);
      InEffectBound(plan, disk.files, |plan.Operations()|);
    }
  }

  lemma {:induction false} InEffectBound(plan: Plan, files: Files, count: nat)
    requires count <= |plan.Operations()|
    ensures InEffect(plan, files, count) <= count
    decreases count
  {
    if count == 0 {
    } else {
      InEffectBound(plan, files, count - 1);
    }
  }
}
