/**
 Vault files as the managed-restore transaction sees them: what one observation of a file can say, and what
 the reconciler and the rollback precheck decide from such observations.

 A `Hash` stands for a SHA-256 digest: two files carry the same hash exactly when they are byte-identical.
*/
module VaultFiles {
  import opened Options

  type Name = string
  type Hash = nat

  /** The entries a staging directory can hold for one transaction. */
  datatype Leaf =
    | Plain(name: Name)      // the staged file itself
    | Partial(name: Name)    // NAME.partial, while the backup file is being copied
    | Portable(name: Name)   // NAME.portable, while a portable restore converts the file
    | Scratch(index: nat)    // classification copies and portable SQLite sidecars
    | BundleTemporary        // NAME.portable.PID.HEX.tmp, while the converted key bundle is being replaced
    | ClassificationJournal  // the rollback journal of the classification copy, while it leaves WAL mode

  datatype Path =
    | Live(name: Name)       // an entry of the vault directory that a restore manages
    | Staging(leaf: Leaf)    // an entry of the staging directory
    | Previous(name: Name)   // an entry of the previous (or damaged-evidence) directory
    | Unrelated(name: Name)  // anything else in the vault directory

  type Files = map<Path, Hash>

  /** Staging entries that no cleanup list names. */
  predicate Stray(leaf: Leaf) {
    leaf.BundleTemporary? || leaf.ClassificationJournal?
  }

  function Strays(files: Files): set<Leaf> {
    set leaf | leaf in {BundleTemporary, ClassificationJournal} && Staging(leaf) in files
  }

  function Content(files: Files, path: Path): Option<Hash> {
    if path in files then Some(files[path]) else None
  }

  /** One property of a JavaScript object that maps file names to hashes. */
  datatype Entry = Entry(name: Name, hash: Hash)

  function HashOf(entries: seq<Entry>, name: Name): Option<Hash> {
    if entries == [] then None
    else if entries[0].name == name then Some(entries[0].hash)
    else HashOf(entries[1..], name)
  }

  ghost predicate Distinct(entries: seq<Entry>) {
    forall i, j :: 0 <= i < j < |entries| ==> entries[i].name != entries[j].name
  }

  datatype Operation =
    | Rename(source: Path, target: Path, hash: Hash, rollbackDestination: Option<Hash>, completed: bool)
    | Unlink(path: Path, hash: Hash, unverified: bool, completed: bool)

  datatype Direction = Forward | Rollback

  datatype Observed = Expected | Absent | Other

  function Observe(files: Files, path: Path, hash: Hash): Observed {
    if path !in files then Absent else if files[path] == hash then Expected else Other
  }

  /** What the reconciler does with one operation: refuse (throw), leave the files and the flag alone,
      record that nothing is left to do, or change the directory. */
  datatype Decision = Refuse | Leave | AlreadyDone | Mutate

  function Decide(files: Files, op: Operation, direction: Direction): Decision {
    match op
    case Unlink(path, hash, unverified, _) =>
      var state := if unverified then (if path in files then Expected else Absent) else Observe(files, path, hash);
      if state.Other? then Refuse
      else if state.Absent? == direction.Forward? then AlreadyDone
      else if direction.Rollback? then Refuse
      else Mutate
    case Rename(source, target, hash, destination, _) =>
      var fromState := Observe(files, if direction.Forward? then source else target, hash);
      var toState := Observe(files, if direction.Forward? then target else source, hash);
      if direction.Rollback? && fromState.Other? && toState.Expected? && destination == Some(files[target]) then Leave
      else if direction.Rollback? && fromState.Expected? && toState.Expected? && destination == Some(hash) then Leave
      else if fromState.Other? || toState.Other? || fromState == toState then Refuse
      else if fromState.Absent? then AlreadyDone
      else Mutate
  }

  /** The directory after the mutation of an operation. */
  function Mutated(files: Files, op: Operation, direction: Direction): Files
    requires Decide(files, op, direction).Mutate?
  {
    match op
    case Unlink(path, _, _, _) => files - {path}
    case Rename(source, target, hash, _, _) =>
      if direction.Forward? then (files - {source})[target := hash] else (files - {target})[source := hash]
  }

  /** The directory after the reconciler handled an operation without refusing it. */
  function Reconciled(files: Files, op: Operation, direction: Direction): Files {
    if Decide(files, op, direction).Mutate? then Mutated(files, op, direction) else files
  }

  /** How a rename may end. It is performed only from a file with its hash to a path without a file. It is left alone
      only where that has happened already or, backwards, where the destination holds what was there before
      publication. Everywhere else it throws, and no content disappears. */
  ghost predicate RenameHandled(files: Files, after: Files, op: Operation, direction: Direction, ok: bool, threw: bool,
                                interrupted: bool)
    requires op.Rename?
  {
    var from := if direction.Forward? then op.source else op.target;
    var to := if direction.Forward? then op.target else op.source;
    var ready := from in files && files[from] == op.hash && to !in files;
    var done := from !in files && to in files && files[to] == op.hash;
    var kept := direction.Rollback? && from in files && to in files && files[to] == op.hash &&
                op.rollbackDestination == Some(files[from]);
    && (after == files || (ready && after == (files - {from})[to := op.hash]))
    && (ok && ready ==> to in after && from !in after)
    && (!ready && !done && !kept ==> threw)
    && (threw && (ready || done || kept) ==> interrupted)
    && after.Values == files.Values
  }

  /** How an unlink may end. It removes only a file with its hash, or one of the transaction itself, and only
      forwards. */
  ghost predicate UnlinkHandled(files: Files, after: Files, op: Operation, direction: Direction, ok: bool, threw: bool,
                                interrupted: bool)
    requires op.Unlink?
  {
    var expected := op.path in files && (op.unverified || files[op.path] == op.hash);
    var done := if direction.Forward? then op.path !in files else expected;
    && (after == files || (direction.Forward? && expected && after == files - {op.path}))
    && (ok && direction.Forward? ==> op.path !in after)
    && (!expected && !done ==> threw)
    && (threw && (expected || done) ==> interrupted)
  }

  /** An operation that judges by its hash takes no other content away. */
  ghost predicate OthersKept(files: Files, after: Files, op: Operation) {
    op.Rename? || !op.unverified ==>
      forall path :: path in files && files[path] != op.hash ==> Content(after, path) == Some(files[path])
  }

  lemma MovingKeepsContents(files: Files, from: Path, to: Path)
    requires from in files && to !in files
    ensures (files - {from})[to := files[from]].Values == files.Values
  {
    var after := (files - {from})[to := files[from]];
    forall hash ensures hash in after.Values <==> hash in files.Values {
      if path :| path in files && files[path] == hash { assert after[if path == from then to else path] == hash; }
      if path :| path in after && after[path] == hash { assert files[if path == to then from else path] == hash; }
    }
  }

  /** The decision handles an operation so: `interrupted` says that another exception was due. */
  lemma DecisionHandles(files: Files, after: Files, op: Operation, direction: Direction, ok: bool, threw: bool,
                        interrupted: bool)
    requires ok ==> !threw
    requires var decision := Decide(files, op, direction);
             && (after == files || (decision.Mutate? && after == Mutated(files, op, direction)))
             && (ok ==> after == Reconciled(files, op, direction)) && (decision.Refuse? ==> threw)
             && (threw ==> decision.Refuse? || interrupted)
    ensures op.Rename? ==> RenameHandled(files, after, op, direction, ok, threw, interrupted)
    ensures op.Unlink? ==> UnlinkHandled(files, after, op, direction, ok, threw, interrupted)
    ensures OthersKept(files, after, op)
  {
    if op.Rename? && after != files {
      MovingKeepsContents(files, if direction.Forward? then op.source else op.target,
                          if direction.Forward? then op.target else op.source);
    }
  }

  /** `replacementHashes[operation.from]`: staged hashes are keyed by bare vault names, so only a live path
      can find one. */
  function ReplacementFor(staged: seq<Entry>, path: Path): Option<Hash> {
    if path.Live? then HashOf(staged, path.name) else None
  }

  /** The rollback precheck for one operation. */
  predicate OperationReconciliable(files: Files, op: Operation, staged: seq<Entry>) {
    op.Rename? &&
    var live := Observe(files, op.target, op.hash);
    var other := Observe(files, op.source, op.hash);
    var replacement := ReplacementFor(staged, op.source);
    || (live.Expected? && other.Absent?)
    || (live.Absent? && other.Expected?)
    || (live.Other? && other.Expected? && op.rollbackDestination == Some(files[op.target]))
    || (live.Expected? && other.Expected? && op.rollbackDestination == Some(op.hash))
    || (live.Expected? && other.Other? && replacement == Some(files[op.source]))
    || (live.Expected? && other.Expected? && replacement == Some(op.hash))
  }

  predicate Reconciliable(files: Files, ops: seq<Operation>, staged: seq<Entry>) {
    forall i :: 0 <= i < |ops| ==> OperationReconciliable(files, ops[i], staged)
  }

  /** The rename list of a restore: every live file moves to the previous directory, then every staged file
      is published. */
  function PreserveOperation(entry: Entry): Operation {
    Rename(Live(entry.name), Previous(entry.name), entry.hash, None, false)
  }

  function PublishOperation(entry: Entry, previous: seq<Entry>): Operation {
    Rename(Staging(Plain(entry.name)), Live(entry.name), entry.hash, HashOf(previous, entry.name), false)
  }

  function RenameOperations(previous: seq<Entry>, staged: seq<Entry>): (ops: seq<Operation>)
    ensures |ops| == |previous| + |staged|
  {
    seq(|previous|, i requires 0 <= i < |previous| => PreserveOperation(previous[i])) +
    seq(|staged|, i requires 0 <= i < |staged| => PublishOperation(staged[i], previous))
  }

  // ---- lookups ----------------------------------------------------------------------------------------------------

  lemma {:induction false} HashOfNone(entries: seq<Entry>, name: Name)
    ensures HashOf(entries, name).None? <==> forall i :: 0 <= i < |entries| ==> entries[i].name != name
  {
    if entries == [] {
    } else {
      HashOfNone(entries[1..], name);
      assert forall i :: 1 <= i < |entries| ==> entries[i] == entries[1..][i - 1];
    }
  }

  lemma {:induction false} HashOfAt(entries: seq<Entry>, i: nat)
    requires Distinct(entries) && i < |entries|
    ensures HashOf(entries, entries[i].name) == Some(entries[i].hash)
  {
    if i == 0 {
    } else {
      assert entries[i] == entries[1..][i - 1];
      HashOfAt(entries[1..], i - 1);
    }
  }

  lemma {:induction false} HashOfConcat(left: seq<Entry>, right: seq<Entry>, name: Name)
    ensures HashOf(left + right, name) == if HashOf(left, name).Some? then HashOf(left, name) else HashOf(right, name)
  {
    if left == [] {
      assert left + right == right;
    } else {
      assert (left + right)[1..] == left[1..] + right;
      HashOfConcat(left[1..], right, name);
    }
  }

  /** Moving the boundary of a split past one entry moves exactly that entry's name. */
  lemma HashOfSplit(entries: seq<Entry>, i: nat, name: Name)
    requires Distinct(entries) && i < |entries|
    ensures HashOf(entries[..i], entries[i].name).None?
    ensures HashOf(entries[i + 1..], entries[i].name).None?
    ensures HashOf(entries[i..], entries[i].name) == HashOf(entries[..i + 1], entries[i].name) == Some(entries[i].hash)
    ensures name != entries[i].name ==>
              HashOf(entries[..i + 1], name) == HashOf(entries[..i], name) &&
              HashOf(entries[i..], name) == HashOf(entries[i + 1..], name)
  {
    assert entries[..i + 1] == entries[..i] + [entries[i]];
    assert entries[i..] == [entries[i]] + entries[i + 1..];
    HashOfConcat(entries[..i], [entries[i]], name);
    HashOfConcat(entries[..i], [entries[i]], entries[i].name);
    HashOfConcat([entries[i]], entries[i + 1..], name);
    HashOfNone(entries[..i], entries[i].name);
    HashOfNone(entries[i + 1..], entries[i].name);
  }
}
