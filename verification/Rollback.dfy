/**
 The rename phase of a managed restore, as a statement about directories only.

 Publication performs the rename list front to back and rollback undoes it back to front, so every directory
 that publication, a crash, or an interrupted rollback can leave is a prefix state: `At(plan, i, files)` says
 that exactly the first `i` renames are in effect. The second half of the module is about arbitrary
 directories: it says exactly when the reverse loop completes once the precheck accepted.
*/
module Rollback {
  import opened Options
  import opened VaultFiles

  /** The fixed data of one restore: the live inventory found before it, the verified staged files, whether the
      live vault was classified as healthy, and the files of the vault directory it must not touch. */
  datatype Plan = Plan(previous: seq<Entry>, staged: seq<Entry>, healthy: bool, unrelated: map<Name, Hash>) {
    ghost predicate Valid() {
      Distinct(previous) && Distinct(staged)
    }

    function Operations(): (ops: seq<Operation>)
      ensures |ops| == |previous| + |staged|
    {
      RenameOperations(previous, staged)
    }

    /** How many preservation renames and how many publication renames the first `i` operations contain. */
    function Preserved(i: nat): nat { if i < |previous| then i else |previous| }
    function Published(i: nat): nat { if i < |previous| then 0 else i - |previous| }

    /** What lies at a path once exactly the first `i` renames are in effect. */
    function ContentAt(i: nat, path: Path): Option<Hash>
      requires i <= |previous| + |staged|
    {
      match path
      case Live(name) =>
        var published := HashOf(staged[..Published(i)], name);
        if published.Some? then published else HashOf(previous[Preserved(i)..], name)
      case Staging(Plain(name)) => HashOf(staged[Published(i)..], name)
      case Staging(_) => None
      case Previous(name) => HashOf(previous[..Preserved(i)], name)
      case Unrelated(name) => if name in unrelated then Some(unrelated[name]) else None
    }

    ghost predicate At(i: nat, files: Files) {
      i <= |previous| + |staged| &&
      forall path :: Content(files, path) == ContentAt(i, path)
    }
  }

  /** Nothing distinguishes two operations for recovery but what they say besides the completion flag. */
  function Forget(op: Operation): Operation { op.(completed := false) }

  predicate SameOperations(actual: seq<Operation>, expected: seq<Operation>) {
    |actual| == |expected| && forall i :: 0 <= i < |actual| ==> Forget(actual[i]) == Forget(expected[i])
  }

  lemma DecideIgnoresCompletion(files: Files, op: Operation, other: Operation, direction: Direction)
    requires Forget(op) == Forget(other)
    ensures Decide(files, op, direction) == Decide(files, other, direction)
    ensures Reconciled(files, op, direction) == Reconciled(files, other, direction)
  {
  }

  /** What the first `i` renames leave at the two paths of operation `i` is its hash and nothing. */
  lemma OperationEndsAt(plan: Plan, i: nat)
    requires plan.Valid() && i < |plan.Operations()|
    ensures var op := plan.Operations()[i];
            && op.Rename?
            && plan.ContentAt(i, op.source) == Some(op.hash) && plan.ContentAt(i, op.target) == None
            && plan.ContentAt(i + 1, op.target) == Some(op.hash) && plan.ContentAt(i + 1, op.source) == None
            && (forall path :: path != op.source && path != op.target ==>
                  plan.ContentAt(i + 1, path) == plan.ContentAt(i, path))
  {
    var op := plan.Operations()[i];
    if i < |plan.previous| {
      var name := plan.previous[i].name;
      HashOfSplit(plan.previous, i, name);
      forall path | path != op.source && path != op.target
        ensures plan.ContentAt(i + 1, path) == plan.ContentAt(i, path)
      {
        if path.Live? || path.Previous? { HashOfSplit(plan.previous, i, path.name); }
      }
    } else {
      var j := i - |plan.previous|;
      HashOfSplit(plan.staged, j, plan.staged[j].name);
      assert plan.previous[|plan.previous|..] == [];
      forall path | path != op.source && path != op.target
        ensures plan.ContentAt(i + 1, path) == plan.ContentAt(i, path)
      {
        match path
        case Live(name) => HashOfSplit(plan.staged, j, name);
        case Staging(Plain(name)) => HashOfSplit(plan.staged, j, name);
        case _ =>
      }
    }
  }

  /** One step of publication: the next rename is possible and moves the directory one prefix further. */
  lemma PublishStep(plan: Plan, i: nat, files: Files)
    requires plan.Valid() && i < |plan.Operations()| && plan.At(i, files)
    ensures Decide(files, plan.Operations()[i], Forward).Mutate?
    ensures plan.At(i + 1, Reconciled(files, plan.Operations()[i], Forward))
  {
    OperationEndsAt(plan, i);
    var op := plan.Operations()[i];
    assert Content(files, op.source) == Some(op.hash) && Content(files, op.target) == None;
    var files' := Reconciled(files, op, Forward);
    forall path ensures Content(files', path) == plan.ContentAt(i + 1, path) {
      assert Content(files, path) == plan.ContentAt(i, path);
    }
  }

  /** Undoing the last rename that is in effect. */
  lemma UndoStep(plan: Plan, i: nat, files: Files)
    requires plan.Valid() && i < |plan.Operations()| && plan.At(i + 1, files)
    ensures Decide(files, plan.Operations()[i], Direction.Rollback).Mutate?
    ensures plan.At(i, Reconciled(files, plan.Operations()[i], Direction.Rollback))
  {
    OperationEndsAt(plan, i);
    var op := plan.Operations()[i];
    assert Content(files, op.source) == None && Content(files, op.target) == Some(op.hash);
    var files' := Reconciled(files, op, Direction.Rollback);
    forall path ensures Content(files', path) == plan.ContentAt(i, path) {
      assert Content(files, path) == plan.ContentAt(i + 1, path);
    }
  }

  /** A rename that is not in effect is recognized as such, whether or not old and new contents agree. */
  lemma SkipStep(plan: Plan, i: nat, j: nat, files: Files)
    requires plan.Valid() && i <= j < |plan.Operations()| && plan.At(i, files)
    ensures Decide(files, plan.Operations()[j], Direction.Rollback) in {Leave, AlreadyDone}
  {
    var op := plan.Operations()[j];
    assert Content(files, op.source) == plan.ContentAt(i, op.source);
    assert Content(files, op.target) == plan.ContentAt(i, op.target);
    if j < |plan.previous| {
      PreservationPending(plan, i, j);
    } else {
      PublicationPending(plan, i, j - |plan.previous|);
    }
  }

  /** Before preservation rename `j`, its file is live and the previous directory has no copy. */
  lemma PreservationPending(plan: Plan, i: nat, j: nat)
    requires plan.Valid() && i <= j < |plan.previous|
    ensures plan.ContentAt(i, Live(plan.previous[j].name)) == Some(plan.previous[j].hash)
    ensures plan.ContentAt(i, Previous(plan.previous[j].name)) == None
  {
    var tail := plan.previous[i..];
    assert tail[j - i] == plan.previous[j];
    HashOfAt(tail, j - i);
    HashOfNone(plan.previous[..i], plan.previous[j].name);
  }

  /** Before publication rename `j`, its file is staged, and the live name holds the old file or nothing. */
  lemma PublicationPending(plan: Plan, i: nat, j: nat)
    requires plan.Valid() && i <= |plan.previous| + j && j < |plan.staged|
    ensures var name := plan.staged[j].name;
            && plan.ContentAt(i, Staging(Plain(name))) == Some(plan.staged[j].hash)
            && (plan.ContentAt(i, Live(name)) == None || plan.ContentAt(i, Live(name)) == HashOf(plan.previous, name))
  {
    var q := plan.Published(i);
    var name := plan.staged[j].name;
    assert plan.staged[q..][j - q] == plan.staged[j];
    HashOfAt(plan.staged[q..], j - q);
    HashOfNone(plan.staged[..q], name);
    PreviousTail(plan, plan.Preserved(i), name);
  }

  lemma PreviousTail(plan: Plan, p: nat, name: Name)
    requires plan.Valid() && p <= |plan.previous|
    ensures HashOf(plan.previous[p..], name).None? || HashOf(plan.previous[p..], name) == HashOf(plan.previous, name)
  {
    assert plan.previous == plan.previous[..p] + plan.previous[p..];
    HashOfConcat(plan.previous[..p], plan.previous[p..], name);
    if HashOf(plan.previous[p..], name).Some? && HashOf(plan.previous[..p], name).Some? {
      HashOfNone(plan.previous[p..], name);
      HashOfNone(plan.previous[..p], name);
    }
  }

  lemma PublishedHead(plan: Plan, q: nat, name: Name)
    requires plan.Valid() && q <= |plan.staged|
    ensures HashOf(plan.staged[..q], name).None? || HashOf(plan.staged[..q], name) == HashOf(plan.staged, name)
  {
    assert plan.staged == plan.staged[..q] + plan.staged[q..];
    HashOfConcat(plan.staged[..q], plan.staged[q..], name);
  }

  /** The precheck accepts every prefix state. */
  lemma PrefixStatesAreReconciliable(plan: Plan, i: nat, files: Files)
    requires plan.Valid() && plan.At(i, files)
    ensures Reconciliable(files, plan.Operations(), plan.staged)
  {
    forall j | 0 <= j < |plan.Operations()|
      ensures OperationReconciliable(files, plan.Operations()[j], plan.staged)
    {
      var op := plan.Operations()[j];
      assert Content(files, op.source) == plan.ContentAt(i, op.source);
      assert Content(files, op.target) == plan.ContentAt(i, op.target);
      if j < |plan.previous| {
        if i <= j {
          PreservationPending(plan, i, j);
        } else {
          PreservationInEffect(plan, i, j);
          PublishedHead(plan, plan.Published(i), plan.previous[j].name);
        }
      } else if i <= j {
        PublicationPending(plan, i, j - |plan.previous|);
      } else {
        PublicationInEffect(plan, i, j - |plan.previous|);
      }
    }
  }

  lemma PreservationInEffect(plan: Plan, i: nat, j: nat)
    requires plan.Valid() && j < i <= |plan.previous| + |plan.staged| && j < |plan.previous|
    ensures var name := plan.previous[j].name;
            && plan.ContentAt(i, Previous(name)) == Some(plan.previous[j].hash)
            && plan.ContentAt(i, Live(name)) == HashOf(plan.staged[..plan.Published(i)], name)
  {
    var p := plan.Preserved(i);
    assert plan.previous[..p][j] == plan.previous[j];
    HashOfAt(plan.previous[..p], j);
    HashOfNone(plan.previous[p..], plan.previous[j].name);
  }

  lemma PublicationInEffect(plan: Plan, i: nat, j: nat)
    requires plan.Valid() && |plan.previous| + j < i <= |plan.previous| + |plan.staged|
    ensures var name := plan.staged[j].name;
            && plan.ContentAt(i, Live(name)) == Some(plan.staged[j].hash)
            && plan.ContentAt(i, Staging(Plain(name))) == None
  {
    var q := plan.Published(i);
    assert plan.staged[..q][j] == plan.staged[j];
    HashOfAt(plan.staged[..q], j);
    HashOfNone(plan.staged[q..], plan.staged[j].name);
  }

  // ---- arbitrary directories --------------------------------------------------------------------------------------

  /** The reverse loop over the first `count` operations: None when one of them is refused. */
  function Undo(files: Files, ops: seq<Operation>, count: nat): Option<Files>
    requires count <= |ops|
    decreases count
  {
    if count == 0 then Some(files)
    else if Decide(files, ops[count - 1], Direction.Rollback).Refuse? then None
    else Undo(Reconciled(files, ops[count - 1], Direction.Rollback), ops, count - 1)
  }

  function Copies(files: Files, name: Name, hash: Hash): nat {
    (if Content(files, Live(name)) == Some(hash) then 1 else 0) +
    (if Content(files, Staging(Plain(name))) == Some(hash) then 1 else 0) +
    (if Content(files, Previous(name)) == Some(hash) then 1 else 0)
  }

  /** Where old and new file are byte-identical, both of them are still there, and no third one. */
  ghost predicate CopiesConserved(plan: Plan, files: Files) {
    CopiesConservedUpTo(plan, files, |plan.previous|)
  }

  ghost predicate CopiesConservedUpTo(plan: Plan, files: Files, count: nat)
    requires count <= |plan.previous|
  {
    forall i :: 0 <= i < count ==> CopiesConservedFor(plan, files, i)
  }

  ghost predicate CopiesConservedFor(plan: Plan, files: Files, i: nat)
    requires i < |plan.previous|
  {
    var entry := plan.previous[i];
    HashOf(plan.staged, entry.name) == Some(entry.hash) ==> Copies(files, entry.name, entry.hash) == 2
  }

  /** Every name that the restore manages holds its old file, or nothing where there was none. */
  ghost predicate RolledBack(plan: Plan, files: Files) {
    forall name :: HashOf(plan.previous, name).Some? || HashOf(plan.staged, name).Some? ==>
      Content(files, Live(name)) == HashOf(plan.previous, name)
  }

  /** Once the precheck accepted a directory, whatever it is, the reverse loop completes exactly when the
      copies of byte-identical files are conserved; and where it completes, the old live files are back. */
  lemma UndoCompletesIff(plan: Plan, files: Files)
    requires plan.Valid() && Reconciliable(files, plan.Operations(), plan.staged)
    ensures var result := Undo(files, plan.Operations(), |plan.Operations()|);
            && (result.Some? <==> CopiesConserved(plan, files))
            && (result.Some? ==> RolledBack(plan, result.value))
  {
    var unpublished := UndoAllPublications(plan, files);
    UndoPreservations(plan, files, |plan.previous|, unpublished);
    if Undo(unpublished, plan.Operations(), |plan.previous|).Some? { UndoneIsRolledBack(plan, files, unpublished); }
  }

  /** A path of one of the first `count` preservation renames. */
  ghost predicate Preserves(plan: Plan, count: nat, path: Path)
    requires count <= |plan.previous|
  {
    exists i :: 0 <= i < count && path in {Live(plan.previous[i].name), Previous(plan.previous[i].name)}
  }

  /** What a completed loop over preservations leaves. */
  lemma {:induction false} UndonePreservations(plan: Plan, now: Files, count: nat)
    requires plan.Valid() && count <= |plan.previous| && Undo(now, plan.Operations(), count).Some?
    ensures var result := Undo(now, plan.Operations(), count).value;
            && (forall i :: 0 <= i < count ==>
                  Content(result, Live(plan.previous[i].name)) == Some(plan.previous[i].hash))
            && (forall path :: !Preserves(plan, count, path) ==> Content(result, path) == Content(now, path))
    decreases count
  {
    if count == 0 {
    } else {
      var op := plan.Operations()[count - 1];
      assert op == PreserveOperation(plan.previous[count - 1]);
      var after := Reconciled(now, op, Direction.Rollback);
      UndonePreservations(plan, after, count - 1);
      assert !Preserves(plan, count - 1, op.source);
      forall path | !Preserves(plan, count, path)
        ensures !Preserves(plan, count - 1, path) && Content(after, path) == Content(now, path)
      {
        assert path != op.source && path != op.target;
      }
    }
  }

  lemma UndoneIsRolledBack(plan: Plan, files: Files, unpublished: Files)
    requires plan.Valid() && Reconciliable(files, plan.Operations(), plan.staged)
    requires Unpublished(plan, files, 0, unpublished)
    requires Undo(unpublished, plan.Operations(), |plan.previous|).Some?
    ensures RolledBack(plan, Undo(unpublished, plan.Operations(), |plan.previous|).value)
  {
    UndonePreservations(plan, unpublished, |plan.previous|);
    var result := Undo(unpublished, plan.Operations(), |plan.previous|).value;
    forall name | HashOf(plan.previous, name).Some? || HashOf(plan.staged, name).Some?
      ensures Content(result, Live(name)) == HashOf(plan.previous, name)
    {
      HashOfNone(plan.previous, name);
      if HashOf(plan.previous, name).Some? {
        var i :| 0 <= i < |plan.previous| && plan.previous[i].name == name;
        HashOfAt(plan.previous, i);
      } else {
        assert !Preserves(plan, |plan.previous|, Live(name));
        NewFileIsUnpublished(plan, files, name);
        assert Content(unpublished, Live(name)) == UnpublishedContent(plan, files, 0, Live(name));
      }
    }
  }

  /** A file that only the backup has is live no more. */
  lemma NewFileIsUnpublished(plan: Plan, files: Files, name: Name)
    requires plan.Valid() && Reconciliable(files, plan.Operations(), plan.staged)
    requires HashOf(plan.staged, name).Some? && HashOf(plan.previous, name).None?
    ensures UnpublishedContent(plan, files, 0, Live(name)) == None
  {
    HashOfNone(plan.staged, name);
    var j :| 0 <= j < |plan.staged| && plan.staged[j].name == name;
    HashOfAt(plan.staged, j);
    assert plan.staged[0..] == plan.staged;
    assert OperationReconciliable(files, plan.Operations()[|plan.previous| + j], plan.staged);
  }

  /** The loop first reverses every publication; what that leaves is settled for each earlier rename. */
  lemma UndoAllPublications(plan: Plan, files: Files) returns (unpublished: Files)
    requires plan.Valid() && Reconciliable(files, plan.Operations(), plan.staged)
    ensures UndoablePreservations(plan, files, |plan.previous|, unpublished)
    ensures Unpublished(plan, files, 0, unpublished)
    ensures Undo(files, plan.Operations(), |plan.Operations()|) == Undo(unpublished, plan.Operations(), |plan.previous|)
  {
    NothingUnpublished(plan, files);
    assert |plan.Operations()| == |plan.previous| + |plan.staged|;
    unpublished := UndoPublications(plan, files, |plan.staged|, files);
    UnpublishedIsUndoable(plan, files, unpublished);
  }

  lemma NothingUnpublished(plan: Plan, files: Files)
    ensures Unpublished(plan, files, |plan.staged|, files)
  {
    assert plan.staged[|plan.staged|..] == [];
  }

  lemma UnpublishedIsUndoable(plan: Plan, files: Files, unpublished: Files)
    requires Unpublished(plan, files, 0, unpublished)
    ensures UndoablePreservations(plan, files, |plan.previous|, unpublished)
  {
  }

  /** The content of a path after the publication renames with index `j` and above were reversed. */
  function UnpublishedContent(plan: Plan, files: Files, j: nat, path: Path): Option<Hash>
    requires j <= |plan.staged|
  {
    if !path.Live? && !(path.Staging? && path.leaf.Plain?) then Content(files, path) else
    var name := if path.Live? then path.name else path.leaf.name;
    var hash := HashOf(plan.staged[j..], name);
    if hash.Some? && Content(files, Live(name)) == hash && Content(files, Staging(Plain(name))) == None
    then (if path.Live? then None else hash)
    else Content(files, path)
  }

  ghost predicate Unpublished(plan: Plan, files: Files, j: nat, now: Files) {
    j <= |plan.staged| &&
    forall path :: Content(now, path) == UnpublishedContent(plan, files, j, path)
  }

  lemma {:induction false} UndoPublications(plan: Plan, files: Files, j: nat, now: Files) returns (result: Files)
    requires plan.Valid() && Reconciliable(files, plan.Operations(), plan.staged) && Unpublished(plan, files, j, now)
    ensures Unpublished(plan, files, 0, result)
    ensures Undo(now, plan.Operations(), |plan.previous| + j) == Undo(result, plan.Operations(), |plan.previous|)
    decreases j
  {
    if j == 0 {
      result := now;
    } else {
      UndoPublication(plan, files, j, now);
      var op := plan.Operations()[|plan.previous| + j - 1];
      result := UndoPublications(plan, files, j - 1, Reconciled(now, op, Direction.Rollback));
    }
  }

  lemma UndoPublication(plan: Plan, files: Files, j: nat, now: Files)
    requires plan.Valid() && Reconciliable(files, plan.Operations(), plan.staged)
    requires 0 < j && Unpublished(plan, files, j, now)
    ensures var op := plan.Operations()[|plan.previous| + j - 1];
            && !Decide(now, op, Direction.Rollback).Refuse?
            && Unpublished(plan, files, j - 1, Reconciled(now, op, Direction.Rollback))
  {
    var op := plan.Operations()[|plan.previous| + j - 1];
    assert op == PublishOperation(plan.staged[j - 1], plan.previous);
    assert OperationReconciliable(files, op, plan.staged);
    var name := plan.staged[j - 1].name;
    HashOfSplit(plan.staged, j - 1, name);
    assert Content(now, op.target) == UnpublishedContent(plan, files, j, op.target) == Content(files, op.target);
    assert Content(now, op.source) == UnpublishedContent(plan, files, j, op.source) == Content(files, op.source);
    var next := Reconciled(now, op, Direction.Rollback);
    ReversedPublication(now, op);
    forall path ensures Content(next, path) == UnpublishedContent(plan, files, j - 1, path) {
      assert Content(now, path) == UnpublishedContent(plan, files, j, path);
      if path != op.source && path != op.target && (path.Live? || (path.Staging? && path.leaf.Plain?)) {
        HashOfSplit(plan.staged, j - 1, if path.Live? then path.name else path.leaf.name);
      }
    }
  }

  /** The effect of one reversed publication that the precheck allowed. */
  lemma ReversedPublication(now: Files, op: Operation)
    requires op.Rename? && op.source != op.target && OperationReconciliable(now, op, [])
    ensures !Decide(now, op, Direction.Rollback).Refuse?
    ensures var next := Reconciled(now, op, Direction.Rollback);
            var moves := Content(now, op.target) == Some(op.hash) && Content(now, op.source) == None;
            && Content(next, op.target) == (if moves then None else Content(now, op.target))
            && Content(next, op.source) == (if moves then Some(op.hash) else Content(now, op.source))
            && (forall path :: path != op.source && path != op.target ==> Content(next, path) == Content(now, path))
  {
  }

  /** The two paths of every preservation rename below `count` are as the first part of the loop left them. */
  ghost predicate UndoablePreservations(plan: Plan, files: Files, count: nat, now: Files) {
    count <= |plan.previous| &&
    forall i :: 0 <= i < count ==>
      Content(now, Live(plan.previous[i].name)) == UnpublishedContent(plan, files, 0, Live(plan.previous[i].name)) &&
      Content(now, Previous(plan.previous[i].name)) == Content(files, Previous(plan.previous[i].name))
  }

  lemma {:induction false} UndoPreservations(plan: Plan, files: Files, count: nat, now: Files)
    requires plan.Valid() && Reconciliable(files, plan.Operations(), plan.staged)
    requires UndoablePreservations(plan, files, count, now)
    ensures Undo(now, plan.Operations(), count).Some? <==> CopiesConservedUpTo(plan, files, count)
    decreases count
  {
    if count == 0 {
    } else {
      var op := plan.Operations()[count - 1];
      UndoPreservationRefused(plan, files, count - 1, now);
      if !Decide(now, op, Direction.Rollback).Refuse? {
        ReversedPreservation(plan, files, count, now);
        UndoPreservations(plan, files, count - 1, Reconciled(now, op, Direction.Rollback));
      }
    }
  }

  /** Reversing one preservation leaves the earlier ones as they were. */
  lemma ReversedPreservation(plan: Plan, files: Files, count: nat, now: Files)
    requires plan.Valid() && 0 < count && UndoablePreservations(plan, files, count, now)
    ensures var after := Reconciled(now, plan.Operations()[count - 1], Direction.Rollback);
            UndoablePreservations(plan, files, count - 1, after)
  {
    var op := plan.Operations()[count - 1];
    assert op == PreserveOperation(plan.previous[count - 1]);
    var after := Reconciled(now, op, Direction.Rollback);
    forall i | 0 <= i < count - 1
      ensures Content(after, Live(plan.previous[i].name)) == Content(now, Live(plan.previous[i].name))
      ensures Content(after, Previous(plan.previous[i].name)) == Content(now, Previous(plan.previous[i].name))
    {
      assert plan.previous[i].name != plan.previous[count - 1].name;
    }
  }

  /** Reversing one preservation is refused exactly when its identical copies were not conserved. */
  lemma UndoPreservationRefused(plan: Plan, files: Files, i: nat, now: Files)
    requires plan.Valid() && i < |plan.previous| && Reconciliable(files, plan.Operations(), plan.staged)
    requires UndoablePreservations(plan, files, i + 1, now)
    ensures Decide(now, plan.Operations()[i], Direction.Rollback).Refuse? <==> !CopiesConservedFor(plan, files, i)
  {
    var entry := plan.previous[i];
    assert OperationReconciliable(files, plan.Operations()[i], plan.staged);
    assert plan.staged[0..] == plan.staged;
    HashOfAt(plan.previous, i);
    if HashOf(plan.staged, entry.name).Some? {
      HashOfNone(plan.staged, entry.name);
      var j :| 0 <= j < |plan.staged| && plan.staged[j].name == entry.name;
      HashOfAt(plan.staged, j);
      assert OperationReconciliable(files, plan.Operations()[|plan.previous| + j], plan.staged);
    }
  }

  /** The precheck alone does not decide it: a directory whose only copy of a byte-identical file is live is
      accepted, and then the loop moves that copy away and stops; so is one that holds all three copies. */
  lemma PrecheckIsNotSufficient(name: Name, hash: Hash, all: bool)
    ensures var plan := Plan([Entry(name, hash)], [Entry(name, hash)], true, map[]);
            var files: Files :=
              if all then map[Live(name) := hash, Staging(Plain(name)) := hash, Previous(name) := hash]
              else map[Live(name) := hash];
            Reconciliable(files, plan.Operations(), plan.staged) && Undo(files, plan.Operations(), 2).None?
  {
    var plan := Plan([Entry(name, hash)], [Entry(name, hash)], true, map[]);
    var files: Files := if all then map[Live(name) := hash, Staging(Plain(name)) := hash, Previous(name) := hash]
                        else map[Live(name) := hash];
    HashOfAt(plan.previous, 0);
    assert plan.Operations() == [PreserveOperation(plan.previous[0]), PublishOperation(plan.staged[0], plan.previous)];
    UndoCompletesIff(plan, files);
    assert !CopiesConservedFor(plan, files, 0);
  }

  /** Prefix states conserve their copies, so on them the loop always completes, at the old directory. */
  lemma {:induction false} UndoFromPrefix(plan: Plan, i: nat, count: nat, files: Files)
    requires plan.Valid() && plan.At(i, files) && count <= |plan.Operations()| && i <= count
    ensures Undo(files, plan.Operations(), count).Some? && plan.At(0, Undo(files, plan.Operations(), count).value)
    decreases count
  {
    if count == 0 {
    } else {
      if i == count {
        UndoStep(plan, i - 1, files);
        UndoFromPrefix(plan, i - 1, count - 1, Reconciled(files, plan.Operations()[count - 1], Direction.Rollback));
      } else {
        SkipStep(plan, i, count - 1, files);
        UndoFromPrefix(plan, i, count - 1, files);
      }
    }
  }
}
