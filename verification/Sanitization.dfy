/**
 Finishing a tightening of custody: removing what the database file still holds of machine-sealed values, retiring
 the machine key when no row uses it any more, and only then clearing the durable flag.

 Every attempt may die or fail anywhere, and the next one starts from what it finds.
*/
module Sanitization {
  import opened Options
  import opened Records
  import opened Crashes
  import opened VaultState
  import opened KeyBundle
  import opened Custody
  import opened CustodyTransition

  /** Right after a tightening committed at the bundle's generation. */
  ghost predicate Tightening(first: Bundle, db: Database) {
    Sound(first, db) && db.sanitization == Some(first.generation) && OfClass(db.rows, Interactive) != {}
  }

  /** No row uses the machine key any more. */
  predicate Retires(db: Database) { OfClass(db.rows, Machine) == {} }

  /** `next` replaces the machine key and nothing else. */
  ghost predicate Retirement(first: Bundle, next: Bundle, start: Database) {
    && Retires(start) && Proposed(first, next, start)
    && next.machine != first.machine && next.interactive == first.interactive
  }

  function Swept(start: Database): Database { start.(residue := {}) }

  /** Before a retirement is journalled. */
  ghost predicate Sweeping(first: Bundle, start: Database, bundle: Bundle, db: Database) {
    && bundle == first && db == start.(residue := db.residue, sanitization := db.sanitization)
    && db.residue in {start.residue, {}}
    && (db.sanitization == start.sanitization || (db.sanitization.None? && db.residue == {} && !Retires(start)))
  }

  /** From the retirement's journal on. */
  ghost predicate Retiring(first: Bundle, next: Bundle, start: Database, committed: bool,
                           bundle: Bundle, journal: Option<CustodyJournal>, db: Database) {
    && Retirement(first, next, Swept(start))
    && Between(first, next, Swept(start), committed, bundle, journal, db.(sanitization := start.sanitization))
    && (db.sanitization == start.sanitization || (db.sanitization.None? && committed && journal.None?))
  }

  ghost predicate Cleaning(p: CustodyProcess, first: Bundle, start: Database, next: Bundle)
    reads p
  {
    && Tightening(first, start)
    && if p.journal.None? && !p.databaseCommitted then Sweeping(first, start, p.bundle, p.db)
       else Retiring(first, next, start, p.databaseCommitted, p.bundle, p.journal, p.db)
  }

  /** In every state a cleanup can be cut in: once the flag is clear nothing is left of the tightened values, and
      where no row used the machine key that key has been replaced. */
  lemma ClearMeansClean(p: CustodyProcess, first: Bundle, start: Database, next: Bundle)
    requires Cleaning(p, first, start, next) && p.db.sanitization.None?
    ensures p.db.residue == {} && p.journal.None? && Sound(p.bundle, p.db)
    ensures p.bundle.generation == first.generation + if Retires(start) then 1 else 0
    ensures p.bundle.machine == first.machine <==> !Retires(start)
  {
  }

  /** Whenever no journal is left, bundle and database agree. */
  lemma CleaningIsSound(p: CustodyProcess, first: Bundle, start: Database, next: Bundle)
    requires Cleaning(p, first, start, next) && p.journal.None?
    ensures Sound(p.bundle, p.db) && p.db.rows == start.rows && p.bundle.interactive == first.interactive
    ensures p.databaseCommitted ==> p.bundle.generation == first.generation + 1 && p.db.residue == {} && Retires(start)
    ensures !p.databaseCommitted ==> p.bundle == first
  {
  }

  /** Every row opens under the key given for its class. */
  predicate ValidContents(bundle: Bundle, db: Database, machineKey: Option<Key>, interactiveKey: Option<Key>) {
    && Validated(bundle, db)
    && (machineKey.Some? ==> machineKey.value == db.machineCheck)
    && (interactiveKey.Some? ==> interactiveKey == db.interactiveCheck)
    && forall id :: id in db.rows ==>
         OpensWith(bundle, id, db.rows[id], if db.rows[id].keyClass == Machine then machineKey else interactiveKey)
  }

  predicate OpensWith(bundle: Bundle, id: Identity, row: Row, key: Option<Key>) {
    key.Some? && Open(row.sealed, key.value, BindingOf(bundle, id, row)).Some?
  }

  /** Validation in terms of the rows: every ciphertext belongs to its place and was made with the key at hand. */
  lemma ValidContentsIff(bundle: Bundle, db: Database, machineKey: Option<Key>, interactiveKey: Option<Key>)
    requires Validated(bundle, db)
    ensures ValidContents(bundle, db, machineKey, interactiveKey) <==>
              && machineKey in {None, Some(db.machineCheck)}
              && (interactiveKey != None ==> interactiveKey == db.interactiveCheck)
              && forall id :: id in db.rows ==>
                   var row := db.rows[id];
                   && row.sealed.binding == RecordBinding(bundle.vaultId, row.recordId, id, row.keyClass)
                   && Some(row.sealed.key) == if row.keyClass == Interactive then interactiveKey else machineKey
  {
    assert forall id :: id in db.rows ==>
      var row := db.rows[id]; var key := if row.keyClass == Machine then machineKey else interactiveKey;
      OpensWith(bundle, id, row, key) <==>
        Some(row.sealed.key) == key && row.sealed.binding == BindingOf(bundle, id, row);
  }

  /** A sound vault passes validation with its own keys; the machine key may be left out when no row needs it. */
  lemma SoundIsValid(bundle: Bundle, db: Database, machineKey: Option<Key>, interactiveKey: Option<Key>)
    requires Sound(bundle, db) && interactiveKey == InteractiveKeyOf(bundle)
    requires machineKey == Some(bundle.machine) || (machineKey.None? && OfClass(db.rows, Machine) == {})
    ensures ValidContents(bundle, db, machineKey, interactiveKey)
  {
    forall id | id in db.rows
      ensures OpensWith(bundle, id, db.rows[id], if db.rows[id].keyClass == Machine then machineKey else interactiveKey)
    {
      assert RowSound(bundle, id, db.rows[id]);
      assert db.rows[id].keyClass == Machine ==> id in OfClass(db.rows, Machine);
    }
  }

  /** One of the two draws repeats no key in use. */
  predicate FreshDraw(bundle: Bundle, draw: Key, redraw: Key) {
    || (draw != bundle.machine && Some(draw) != InteractiveKeyOf(bundle))
    || (redraw != bundle.machine && Some(redraw) != InteractiveKeyOf(bundle))
  }

  /** The process holds the interactive key of the bundle. */
  predicate Unlocked(p: CustodyProcess) reads p {
    p.interactiveKey.Some? && p.interactiveKey == InteractiveKeyOf(p.bundle)
  }

  /** Primitives that suffice for one attempt, recovery of a journal included. */
  const ATTEMPT_STEPS: nat := 20

  /** Checkpoint, vacuum, removal of sidecars, and validation. The vacuum is what removes the residue. */
  method SanitizeClosedVault(p: CustodyProcess, machineKey: Option<Key>, ghost first: Bundle, ghost start: Database,
                             ghost next: Bundle)
    returns (s: Status)
    requires Cleaning(p, first, start, next) && p.journal.None? && p.db.sanitization.Some?
    requires machineKey == if OfClass(p.db.rows, Machine) != {} then Some(p.bundle.machine) else None
    modifies p`db, p.fuse
    ensures Cleaning(p, first, start, next) && p.db.sanitization.Some? && p.fuse.Used(s, 4)
    ensures s.Ok? ==> p.db.residue == {}
    ensures old(p.fuse.faults).Quiet? && s.Threw? ==> !Unlocked(p)
  {
    s := p.fuse.Primitive();
    if !s.Ok? { return; }
    s := p.fuse.Primitive();
    if !s.Ok? { return; }
    p.db := p.db.(residue := {});
    s := p.fuse.Primitive();
    if !s.Ok? { return; }
    s := p.fuse.Primitive();
    if !s.Ok? { return; }
    CleaningIsSound(p, first, start, next);
    if Unlocked(p) { SoundIsValid(p.bundle, p.db, machineKey, p.interactiveKey); }
    if !ValidContents(p.bundle, p.db, machineKey, p.interactiveKey) { return Threw; }
  }

  /** Retirement of the machine key, as one journalled bundle transition. */
  method RetireMachineDataKey(p: CustodyProcess, passphrase: string, draw: Key, redraw: Key, salt: nat,
                              ghost first: Bundle, ghost start: Database, ghost next: Bundle)
    returns (s: Status, ghost replaced: Bundle)
    requires Cleaning(p, first, start, next) && p.journal.None? && !p.databaseCommitted && p.db.sanitization.Some?
    requires Retires(p.db) && p.db.residue == {}
    requires p.interactiveKey.Some? && UnwrapInteractive(p.bundle, passphrase) == p.interactiveKey
    modifies p, p.fuse
    ensures Cleaning(p, first, start, replaced) && p.db.sanitization.Some? && p.fuse.Used(s, 10)
    ensures s.Ok? ==> p.journal.None? && p.databaseCommitted && Unlocked(p)
    ensures old(p.fuse.faults).Quiet? && s.Threw? ==> !FreshDraw(first, draw, redraw)
  {
    replaced := next;
    var interactiveKey := p.interactiveKey.value;
    var rotated := RotateMachine(p.bundle, passphrase, interactiveKey, draw, redraw, salt);
    if rotated.None? { return Threw, next; }
    replaced := rotated.value;
    assert p.db == Swept(start);
    RowsSurvive(p.bundle, rotated.value, p.db.rows);
    s := p.CommitKeyBundleTransition(rotated.value, interactiveKey);
  }

  /** Validation, and with it the end of the cleanup: the flag is cleared. */
  method ClearPendingCustodySanitization(p: CustodyProcess, ghost first: Bundle, ghost start: Database,
                                         ghost next: Bundle)
    returns (s: Status)
    requires Cleaning(p, first, start, next) && p.journal.None? && p.db.sanitization.Some? && p.db.residue == {}
    requires Retires(start) ==> p.databaseCommitted
    modifies p`db, p.fuse
    ensures Cleaning(p, first, start, next) && p.fuse.Used(s, 2)
    ensures s.Ok? ==> p.db.sanitization.None?
    ensures old(p.fuse.faults).Quiet? && s.Threw? ==> !Unlocked(p)
  {
    CleaningIsSound(p, first, start, next);
    if p.interactiveKey.None? || p.interactiveKey != p.db.interactiveCheck { return Threw; }
    var machineKey := if OfClass(p.db.rows, Machine) != {} then Some(p.bundle.machine) else None;
    SoundIsValid(p.bundle, p.db, machineKey, p.interactiveKey);
    if !ValidContents(p.bundle, p.db, machineKey, p.interactiveKey) { return Threw; }
    s := p.fuse.Primitive();
    if !s.Ok? { return; }
    p.db := p.db.(sanitization := None);
    s := p.fuse.Primitive();
  }

  /** One attempt to finish. Retirement happens only while the bundle still has the generation of the tightening. */
  method CompletePendingCustodySanitization(p: CustodyProcess, passphrase: Option<string>, draw: Key, redraw: Key,
                                            salt: nat,
                                            ghost first: Bundle, ghost start: Database, ghost next: Bundle)
    returns (s: Status, ghost replaced: Bundle)
    requires Cleaning(p, first, start, next) && p.journal.None?
    modifies p, p.fuse
    ensures Cleaning(p, first, start, replaced) && p.fuse.Used(s, 16)
    ensures s.Ok? ==> p.journal.None? && p.db.sanitization.None?
    ensures old(p.fuse.faults).Quiet? && s.Threw? && old(Unlocked(p)) ==>
              && !old(p.databaseCommitted)
              && (passphrase.None? || UnwrapInteractive(first, passphrase.value).None? ||
                  !FreshDraw(first, draw, redraw))
  {
    replaced := next;
    if p.db.sanitization.None? { return Ok, next; }
    CleaningIsSound(p, first, start, next);
    var machine, interactive := OfClass(p.db.rows, Machine), OfClass(p.db.rows, Interactive);
    var needsRetirement := machine == {} && Some(p.bundle.generation) == p.db.sanitization;
    if interactive != {} && p.interactiveKey.None? { return Threw, next; }
    if needsRetirement {
      if passphrase.None? || p.interactiveKey.None? ||
         UnwrapInteractive(p.bundle, passphrase.value) != p.interactiveKey
      {
        p.interactiveKey := None;
        return Threw, next;
      }
    }
    s := SanitizeClosedVault(p, if machine != {} then Some(p.bundle.machine) else None, first, start, next);
    if !s.Ok? { return; }
    if needsRetirement {
      s, replaced := RetireMachineDataKey(p, passphrase.value, draw, redraw, salt, first, start, next);
      if !s.Ok? { return; }
    }
    s := ClearPendingCustodySanitization(p, first, start, replaced);
  }

  /** What an operator and the random source bring to one attempt. */
  datatype Attempt = Attempt(passphrase: string, draw: Key, redraw: Key, salt: nat, cut: Cut)

  /** The custody part of recovery at the next start: first the journal, then, with the passphrase when interactive
      rows exist, the pending cleanup. */
  method RecoverVault(p: CustodyProcess, attempt: Attempt, ghost first: Bundle, ghost start: Database,
                      ghost next: Bundle)
    returns (s: Status, ghost replaced: Bundle)
    requires Cleaning(p, first, start, next)
    modifies p, p.fuse
    ensures Cleaning(p, first, start, replaced)
    ensures s.Ok? ==> p.journal.None? && p.db.sanitization.None?
    ensures attempt.cut.faults.Quiet? && attempt.cut.fuel > ATTEMPT_STEPS && Competent(attempt, first) ==> s.Ok?
  {
    p.fuse.Reset(attempt.cut);
    p.interactiveKey := None;
    replaced := next;
    s := RecoverJournal(p, first, start, next);
    if !s.Ok? { return; }
    if p.db.sanitization.None? { return; }
    CleaningIsSound(p, first, start, next);
    var passphrase := None;
    if OfClass(p.db.rows, Interactive) != {} {
      p.interactiveKey := UnwrapInteractive(p.bundle, attempt.passphrase);
      if p.interactiveKey.None? { return Threw, next; }
      passphrase := Some(attempt.passphrase);
    }
    s, replaced := CompletePendingCustodySanitization(p, passphrase, attempt.draw, attempt.redraw, attempt.salt,
                                                      first, start, next);
  }

  /** An attempt with the right passphrase and a draw that repeats no key in use. */
  predicate Competent(attempt: Attempt, first: Bundle) {
    UnwrapInteractive(first, attempt.passphrase).Some? && FreshDraw(first, attempt.draw, attempt.redraw)
  }

  method RecoverJournal(p: CustodyProcess, ghost first: Bundle, ghost start: Database, ghost next: Bundle)
    returns (s: Status)
    requires Cleaning(p, first, start, next)
    modifies p, p.fuse
    ensures Cleaning(p, first, start, next) && p.fuse.Spent(s, 4)
    ensures s.Ok? ==> p.journal.None?
  {
    if p.journal.None? { return Ok; }
    s := p.RecoverInterruptedCustodyTransition(first, next, Swept(start));
  }

  /** However often the cleanup of a tightening is interrupted, its completion happens exactly once: the residue is
      gone and the flag clear, no journal is left, every value is kept, and the machine key was replaced, with
      exactly one new generation, if and only if the tightening left no machine row. */
  method SanitizeAcrossCrashes(p: CustodyProcess, attempts: seq<Attempt>, last: Attempt, ghost first: Bundle,
                               ghost start: Database)
    requires Tightening(first, start) && p.bundle == first && p.db == start && p.journal.None? && !p.databaseCommitted
    requires last.cut.faults.Quiet? && last.cut.fuel > ATTEMPT_STEPS && Competent(last, first)
    modifies p, p.fuse
    ensures p.db.sanitization.None? && p.db.residue == {} && p.journal.None? && Sound(p.bundle, p.db)
    ensures p.db.rows == start.rows && p.bundle.interactive == first.interactive
    ensures p.bundle.generation == first.generation + if Retires(start) then 1 else 0
    ensures p.bundle.machine == first.machine <==> !Retires(start)
  {
    var s;
    ghost var next := first;
    for n := 0 to |attempts|
      invariant Cleaning(p, first, start, next)
    {
      s, next := RecoverVault(p, attempts[n], first, start, next);
    }
    s, next := RecoverVault(p, last, first, start, next);
    ClearMeansClean(p, first, start, next);
    CleaningIsSound(p, first, start, next);
  }

  /** A transition that tightened anything starts exactly such a cleanup. */
  lemma TighteningNeedsCleanup(bundle: Bundle, targets: Targets, db: Database)
    requires Sound(bundle, db) && targets.Keys == db.rows.Keys && Tightened(targets, db.rows) != {}
    requires bundle.interactive.Some?
    ensures Tightening(bundle, TransitionedDatabase(bundle, targets, db))
  {
    TransitionedIsSound(bundle, targets, db);
    var after := TransitionedDatabase(bundle, targets, db);
    var id :| id in Tightened(targets, db.rows);
    assert Classes(after.rows)[id] == Interactive;
    assert id in OfClass(after.rows, Interactive);
  }
}
