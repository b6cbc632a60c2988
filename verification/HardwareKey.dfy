/**
 The life of a hardware key: a pending record comes before the key, an active record after it, and a rollback only
 in between. A process may be killed, and a file or back-end operation may fail, at every step.

 Wrapping is symbolic: a wrapped data key opens only under the hardware key it was wrapped for.
*/
module HardwareKey {
  import opened Options
  import opened Crashes
  import opened OwnerFile

  type DataKey = nat

  datatype Wrapped = Wrapped(publicKey: nat, dataKey: DataKey)

  /** `recovery` is the recovery secret the record is authenticated with. */
  datatype Record =
    | Pending(recovery: nat, dataKey: DataKey)
    | Active(recovery: nat, dataKey: DataKey, publicKey: nat, ciphertext: Wrapped)

  datatype LifecycleError =
    | AlreadyExists | KeyNotFound | RecoveryRequired | AuthenticationFailed | MetadataFailed | ActivationIndeterminate
    | BackendFailed | InvalidRecord | Damaged | IdentityMismatch | VaultKeyMismatch | CleanupFailed

  datatype Outcome<T> = Success(value: T) | Failure(error: LifecycleError) | Dead

  /** What the platform does when asked to create a key. `valid` is whether the record it reports passes validation,
      `storable` whether the public key and ciphertext fit the file format. */
  datatype Creation = Creates(publicKey: nat, valid: bool, storable: bool) | Refuses | LeavesPartial(publicKey: nat)

  /** Primitives of the three parts of a creation. */
  const BEGIN_STEPS: nat := 8
  const BACKEND_STEPS: nat := 2
  const ACTIVATE_STEPS: nat := 7

  // The steps of the first and the last part that make a record visible.
  const BEGIN_LINK: nat := 6
  const ACTIVATE_RENAME: nat := 6

  function MapFileError(error: FileError): LifecycleError {
    match error
    case NotFound => KeyNotFound
    case ConcurrentChange => RecoveryRequired
    case Failed => MetadataFailed
    case Indeterminate => ActivationIndeterminate
  }

  /** The hardware key exists only beside a record; an active record means that the key it names exists and that
      both wrappers hold the same data key. */
  predicate Lifecycle(record: Option<Record>, key: Option<nat>) {
    && (key.Some? ==> record.Some?)
    && (record.Some? && record.value.Active? ==>
          && key == Some(record.value.publicKey)
          && record.value.ciphertext == Wrapped(record.value.publicKey, record.value.dataKey))
  }

  /** A record appears as pending, becomes active at most once, and keeps its secret and its data key. */
  predicate Advances(before: Option<Record>, after: Option<Record>) {
    || before == after
    || (before.None? && after.Some?)
    || (before.Some? && before.value.Pending? && after.Some? && after.value.Active? &&
        after.value.recovery == before.value.recovery && after.value.dataKey == before.value.dataKey)
  }

  /** Record and key, how often the platform was asked for a key, and how often a created one was deleted. */
  datatype Snapshot = Snapshot(record: Option<Record>, key: Option<nat>, creations: nat, deletions: nat)

  const NOTHING := Snapshot(None, None, 0, 0)

  /** The record that a creation leaves, by where it is cut: none before the link of the pending record, and an active
      one only behind the rename that activates it. */
  function CreatedRecord(before: Option<Record>, recovery: nat, drawn: DataKey, creation: Creation, cut: Cut)
    : Option<Record>
  {
    if before.Some? then before
    else if !cut.Reaches(BEGIN_LINK) then None
    else if creation.Creates? && creation.valid && creation.storable &&
            cut.Reaches(BEGIN_STEPS + BACKEND_STEPS + ACTIVATE_RENAME)
    then Some(Active(recovery, drawn, creation.publicKey, Wrapped(creation.publicKey, drawn)))
    else Some(Pending(recovery, drawn))
  }

  class KeyTransaction {
    const fuse: Fuse
    const file: OwnerOnlyFile<Record>
    var key: Option<nat>
    ghost var creations: nat  // calls that ask the platform for a key
    ghost var deletions: nat

    ghost function State(): Snapshot reads this, file {
      Snapshot(file.content, key, creations, deletions)
    }

    ghost predicate Valid() reads this, file {
      file.fuse == fuse && Lifecycle(file.content, key)
    }

    constructor (fuse: Fuse, file: OwnerOnlyFile<Record>)
      requires file.fuse == fuse && file.content == None
      ensures Valid() && this.fuse == fuse && this.file == file && State() == NOTHING
    {
      this.fuse, this.file, key, creations, deletions := fuse, file, None, 0, 0;
    }

    method LoadRecord(recovery: nat) returns (result: Outcome<Record>)
      requires Valid()
      modifies file`temporary, fuse
      ensures Valid()
      ensures result.Success? <==>
                file.content.Some? && file.content.value.recovery == recovery && old(fuse.Calm(2))
      ensures result.Success? ==> file.content == Some(result.value)
      ensures result == Failure(KeyNotFound) <==> file.content.None? && old(fuse.Calm(2))
      ensures result == Failure(AuthenticationFailed) <==>
                file.content.Some? && file.content.value.recovery != recovery && old(fuse.Calm(2))
      ensures old(fuse.Calm(2)) ==> fuse.Performed(2)
      ensures result == Failure(MetadataFailed) || result.Dead? <==> !old(fuse.Calm(2))
      ensures result.Failure? ==> result.error in {KeyNotFound, MetadataFailed, AuthenticationFailed}
      ensures old(fuse.faults).Quiet? ==> (fuse.faults.Quiet? &&
                (file.content.Some? && file.content.value.recovery == recovery ==> !result.Failure?))
    {
      var r, bytes := file.Read();
      if r.Killed? { return Dead; }
      if r.Error? { return Failure(MapFileError(r.error)); }
      if bytes.value.recovery != recovery { return Failure(AuthenticationFailed); }
      return Success(bytes.value);
    }

    /** A fresh data key and its pending record, only where no record is. With another recovery secret an existing
        record does not authenticate; otherwise it says that the key exists, or that it is pending. */
    method Begin(recovery: nat, drawn: DataKey) returns (result: Outcome<DataKey>)
      requires Valid()
      modifies file`content, file`temporary, fuse
      ensures Valid()
      ensures file.content == if old(file.content).None? && old(fuse.Calm(BEGIN_LINK))
                              then Some(Pending(recovery, drawn)) else old(file.content)
      ensures result.Success? <==> old(file.content).None? && old(fuse.Calm(BEGIN_STEPS))
      ensures result.Failure? ==>
                result.error in {AlreadyExists, RecoveryRequired, MetadataFailed, AuthenticationFailed}
      ensures old(file.content).Some? && old(fuse.Calm(2)) ==>
                result == Failure(if old(file.content).value.recovery != recovery then AuthenticationFailed
                                    else if old(file.content).value.Active? then AlreadyExists else RecoveryRequired)
      ensures old(file.content).None? || !old(fuse.Calm(2)) ==>
                result.Success? || result.Dead? || result == Failure(MetadataFailed)
      ensures result.Success? ==>
                result.value == drawn && file.content == Some(Pending(recovery, drawn)) && fuse.Performed(BEGIN_STEPS)
    {
      var loaded := LoadRecord(recovery);
      match loaded {
        case Dead => return Dead;
        case Success(record) => return Failure(if record.Active? then AlreadyExists else RecoveryRequired);
        case Failure(error) => if error != KeyNotFound { return Failure(error); }
      }
      var r := file.Create(Pending(recovery, drawn));
      if r.Killed? { return Dead; }
      if r.Error? { return Failure(MapFileError(r.error)); }
      return Success(drawn);
    }

    /** The platform creates at most one key, and wraps the data key for it; when wrapping fails it deletes that
        key again, or says that it could not. */
    method BackendCreate(dataKey: DataKey, creation: Creation) returns (result: Outcome<Wrapped>)
      requires Valid() && file.content.Some? && file.content.value.Pending?
      modifies this`key, this`creations, fuse
      ensures Valid() && creations == old(creations) + 1
      ensures result.Success? <==> creation.Creates? && old(key).None? && old(fuse.Calm(BACKEND_STEPS))
      ensures result.Success? ==>
                && key == Some(creation.publicKey) && result.value == Wrapped(creation.publicKey, dataKey)
                && fuse.Performed(BACKEND_STEPS)
      ensures old(key).Some? ==> key == old(key)
      ensures result.Failure? ==> result.error in {BackendFailed, AlreadyExists, CleanupFailed}
      ensures result.Failure? && key != old(key) ==> result.error == CleanupFailed
    {
      creations := creations + 1;
      var s := fuse.Primitive();
      if s.Died? { return Dead; }
      if s.Threw? || creation.Refuses? { return Failure(BackendFailed); }
      if key.Some? { return Failure(AlreadyExists); }
      key := Some(creation.publicKey);
      if creation.LeavesPartial? { return Failure(CleanupFailed); }
      s := fuse.Primitive();
      if s.Died? { return Dead; }
      if s.Threw? {
        key := None;
        return Failure(BackendFailed);
      }
      return Success(Wrapped(creation.publicKey, dataKey));
    }

    /** Deletes the key this transaction created. It may be asked for only while the record is still pending. */
    method RollbackCreated(works: bool) returns (result: Outcome<bool>)
      requires Valid() && file.content.Some? && file.content.value.Pending?
      modifies this`key, this`deletions, fuse
      ensures Valid()
      ensures key == old(key) || key == None
      ensures result.Success? <==> works && old(fuse.Calm(1))
      ensures result.Success? ==> key == None
      ensures deletions == old(deletions) + if key != old(key) then 1 else 0
    {
      var s := fuse.Primitive();
      if s.Died? { return Dead; }
      if s.Threw? || !works { return Failure(CleanupFailed); }
      if key.Some? { deletions := deletions + 1; }
      key := None;
      return Success(true);
    }

    /** Turns the pending record into the active one. After any error but `ActivationIndeterminate` it is pending
        still. */
    method Activate(recovery: nat, dataKey: DataKey, ciphertext: Wrapped, storable: bool)
      returns (result: Outcome<bool>)
      requires Valid() && file.content == Some(Pending(recovery, dataKey))
      requires key == Some(ciphertext.publicKey) && ciphertext.dataKey == dataKey
      modifies file`content, file`temporary, fuse
      ensures Valid()
      ensures file.content == if storable && old(fuse.Calm(ACTIVATE_RENAME))
                              then Some(Active(recovery, dataKey, ciphertext.publicKey, ciphertext))
                              else old(file.content)
      ensures result.Success? <==> storable && old(fuse.Calm(ACTIVATE_STEPS))
      ensures result.Success? || result == Failure(ActivationIndeterminate) ==> file.content.value.Active?
      ensures result.Failure? && result.error != ActivationIndeterminate ==> file.content == old(file.content)
    {
      var loaded := LoadRecord(recovery);
      match loaded {
        case Dead => return Dead;
        case Failure(error) => return Failure(error);
        case Success(record) =>
          if record.Active? { return Failure(AlreadyExists); }
          if record.dataKey != dataKey || !storable { return Failure(Damaged); }
      }
      var r := file.Replace(Active(recovery, dataKey, ciphertext.publicKey, ciphertext));
      if r.Killed? { return Dead; }
      if r.Error? { return Failure(MapFileError(r.error)); }
      return Success(true);
    }

    /** What one transaction may do, whatever its result. */
    twostate predicate Kept() reads this, file {
      && Valid() && Advances(old(file.content), file.content)
      && (old(file.content).Some? ==> State() == old(State()))
      && (file.content.None? ==> State() == old(State()))
      && 0 <= deletions - old(deletions) <= creations - old(creations) <= 1
      && (deletions > old(deletions) ==> key.None? && file.content.Some? && file.content.value.Pending?)
    }

    /** Creation: pending record, hardware key, active record. It succeeds exactly where no record was, the platform
        creates a valid key that can be stored, and nothing interrupts it. A failure after the key was created
        deletes it again, unless the activation may already have happened. Where a record is already there the back
        end is not called, and the error says which record it is. */
    method CreateNew(recovery: nat, drawn: DataKey, creation: Creation, rollbackWorks: bool)
      returns (result: Outcome<nat>)
      requires Valid()
      modifies this`key, this`creations, this`deletions, file`content, file`temporary, fuse
      ensures Kept()
      ensures file.content == CreatedRecord(old(file.content), recovery, drawn, creation, old(fuse.Left()))
      ensures result.Success? <==>
                && old(file.content).None? && creation.Creates? && creation.valid && creation.storable
                && old(fuse.Calm(BEGIN_STEPS + BACKEND_STEPS + ACTIVATE_STEPS))
      ensures result.Success? ==> key == Some(result.value) && file.content.Some? && file.content.value.Active?
      ensures result.Success? ==> file.content.value.publicKey == result.value && file.content.value.dataKey == drawn
      ensures result.Failure? && result.error !in {CleanupFailed, ActivationIndeterminate} && old(key).None? ==>
                key.None?
      ensures result == Failure(ActivationIndeterminate) ==> key.Some? && file.content.value.Active?
      ensures old(file.content).Some? && old(fuse.Calm(2)) ==>
                result == Failure(if old(file.content).value.recovery != recovery then AuthenticationFailed
                                    else if old(file.content).value.Active? then AlreadyExists else RecoveryRequired)
    {
      var begun := Begin(recovery, drawn);
      if begun.Dead? { return Dead; }
      if begun.Failure? { return Failure(begun.error); }
      var created := BackendCreate(drawn, creation);
      if created.Dead? { return Dead; }
      if created.Failure? { return Failure(created.error); }
      var error := InvalidRecord;
      if creation.valid {
        var activated := Activate(recovery, drawn, created.value, creation.storable);
        if activated.Dead? { return Dead; }
        if activated.Success? { return Success(creation.publicKey); }
        error := activated.error;
        if error == ActivationIndeterminate { return Failure(error); }
      }
      var undone := RollbackCreated(rollbackWorks);
      if undone.Dead? { return Dead; }
      if undone.Failure? { return Failure(CleanupFailed); }
      return Failure(error);
    }

    /** The platform opens the wrapped data key under the key it holds, after comparing public keys. */
    method BackendOpen(publicKey: nat, ciphertext: Wrapped, permitted: bool) returns (result: Outcome<(nat, DataKey)>)
      modifies fuse
      ensures result.Success? <==>
                permitted && key == Some(publicKey) && ciphertext.publicKey == publicKey && old(fuse.Calm(1))
      ensures result.Success? ==> result.value == (publicKey, ciphertext.dataKey)
      ensures result.Failure? ==> result.error == if permitted && key == None && old(fuse.Calm(1)) then KeyNotFound
                                                  else BackendFailed
      ensures old(fuse.faults).Quiet? && permitted && key == Some(publicKey) && ciphertext.publicKey == publicKey ==>
                !result.Failure?
    {
      var s := fuse.Primitive();
      if s.Died? { return Dead; }
      if s.Threw? || !permitted { return Failure(BackendFailed); }
      if key.None? { return Failure(KeyNotFound); }
      if key.value != publicKey || ciphertext.publicKey != key.value { return Failure(BackendFailed); }
      return Success((key.value, ciphertext.dataKey));
    }

    /** Opening never changes record or key. It succeeds exactly on an active record, with its recovery secret, when
        file and platform work, and it never finds the two copies of the data key different. A missing record, another
        recovery secret and a pending record each have their own error. */
    method OpenExisting(recovery: nat, permitted: bool) returns (result: Outcome<DataKey>)
      requires Valid()
      modifies file`temporary, fuse
      ensures Valid()
      ensures result.Success? <==>
                && file.content.Some? && file.content.value.Active? && file.content.value.recovery == recovery
                && permitted && old(fuse.Calm(3))
      ensures result.Success? ==> result.value == file.content.value.dataKey
      ensures result.Failure? ==> result.error !in {VaultKeyMismatch, IdentityMismatch}
      ensures result == Failure(KeyNotFound) <==> file.content.None? && old(fuse.Calm(2))
      ensures result == Failure(AuthenticationFailed) <==>
                file.content.Some? && file.content.value.recovery != recovery && old(fuse.Calm(2))
      ensures result == Failure(RecoveryRequired) <==>
                && file.content.Some? && file.content.value.Pending? && file.content.value.recovery == recovery
                && old(fuse.Calm(2))
    {
      var loaded := LoadRecord(recovery);
      if loaded.Dead? { return Dead; }
      if loaded.Failure? { return Failure(loaded.error); }
      var record := loaded.value;
      if record.Pending? { return Failure(RecoveryRequired); }
      var unwrapped := BackendOpen(record.publicKey, record.ciphertext, permitted);
      if unwrapped.Dead? { return Dead; }
      if unwrapped.Failure? { return Failure(unwrapped.error); }
      if unwrapped.value.0 != record.publicKey { return Failure(IdentityMismatch); }
      if unwrapped.value.1 != record.dataKey { return Failure(VaultKeyMismatch); }
      return Success(record.dataKey);
    }
  }

  datatype Operation =
    | CreateWith(recovery: nat, drawn: DataKey, creation: Creation, rollbackWorks: bool, cut: Cut)
    | OpenWith(recovery: nat, permitted: bool, cut: Cut)

  /** One transaction, in its own process. */
  ghost predicate Step(operation: Operation, before: Snapshot, after: Snapshot) {
    match operation
    case OpenWith(_, _, _) => after == before
    case CreateWith(recovery, drawn, creation, _, cut) =>
      && after.record == CreatedRecord(before.record, recovery, drawn, creation, cut)
      && (before.record.Some? ==> after == before)
      && Advances(before.record, after.record)
  }

  /** A run from nothing. */
  ghost predicate Life(operations: seq<Operation>, run: seq<Snapshot>) {
    && |run| == |operations| + 1 && run[0] == NOTHING
    && (forall n :: 0 <= n < |operations| ==> Step(operations[n], run[n], run[n + 1]))
    && (forall n :: 0 <= n < |run| ==> Accounted(run[n]))
  }

  /** The key exists only beside a record, which if active names it; the platform was asked for one key at most, and
      only what it was asked for was ever deleted, while the record was still pending. */
  ghost predicate Accounted(state: Snapshot) {
    && Lifecycle(state.record, state.key)
    && (state.record.None? ==> state == NOTHING)
    && state.deletions <= state.creations <= 1
    && (state.deletions == 1 ==> state.key.None? && state.record.value.Pending?)
  }

  /** Over every run of creations and openings, each killed or failing anywhere: every one of them does to the record
      what its cut says and never leaves an unaccounted key. The first record, once pending, is the only one there
      will ever be. */
  method RunLifecycle(operations: seq<Operation>) returns (t: KeyTransaction, ghost run: seq<Snapshot>)
    ensures t.Valid() && Life(operations, run) && run[|operations|] == t.State()
  {
    var fuse := new Fuse(Cut(0, Quiet));
    var file := new OwnerOnlyFile<Record>(fuse);
    t := new KeyTransaction(fuse, file);
    run := [NOTHING];
    for n := 0 to |operations|
      invariant t.Valid() && fresh(t) && fresh(t.file) && fresh(t.fuse)
      invariant Life(operations[..n], run) && run[n] == t.State()
    {
      var operation := operations[n];
      t.fuse.Reset(operation.cut);
      match operation {
        case CreateWith(recovery, drawn, creation, rollbackWorks, _) =>
          var created := t.CreateNew(recovery, drawn, creation, rollbackWorks);
        case OpenWith(recovery, permitted, _) =>
          var unwrapped := t.OpenExisting(recovery, permitted);
      }
      run := run + [t.State()];
    }
    assert operations[..|operations|] == operations;
  }
}
