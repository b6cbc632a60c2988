/**
 Replacing the key bundle, and finishing a tightening of custody, across crashes.

 The bundle file, the custody journal and the database change one after another; the database's own generation
 decides which bundle is the current one. `databaseCommitted` records the commit point.
*/
module Custody {
  import opened Options
  import opened Crashes
  import opened VaultState
  import opened KeyBundle

  /** The journal is authenticated under the previous machine key. */
  datatype CustodyJournal = CustodyJournal(previous: Bundle, next: Bundle, mac: Key)

  /** The database after the commit point of a transition. */
  function Rebound(db: Database, next: Bundle): Database {
    db.(bundleGeneration := next.generation, bundleHash := next, machineCheck := next.machine,
        interactiveCheck := InteractiveKeyOf(next))
  }

  /** A transition that may be committed from this bundle and database. */
  ghost predicate Proposed(previous: Bundle, next: Bundle, db: Database) {
    Sound(previous, db) && Successor(previous, next) && RowsSound(next, db.rows)
  }

  lemma ReboundIsSound(previous: Bundle, next: Bundle, db: Database)
    requires Proposed(previous, next, db)
    ensures Sound(next, Rebound(db, next)) && View(Rebound(db, next).rows) == View(db.rows)
  {
  }

  /** Every state a transition or its recovery can be cut in. */
  ghost predicate Between(previous: Bundle, next: Bundle, before: Database, committed: bool,
                          bundle: Bundle, journal: Option<CustodyJournal>, db: Database) {
    && db == (if committed then Rebound(before, next) else before)
    && if journal.Some?
       then journal == Some(CustodyJournal(previous, next, previous.machine)) && bundle in {previous, next}
       else bundle == if committed then next else previous
  }

  /** The primitives of a transition up to the one that commits the database. */
  const TRANSITION_COMMIT: nat := 5

  class CustodyProcess {
    const fuse: Fuse
    var bundle: Bundle
    var journal: Option<CustodyJournal>
    var db: Database
    var interactiveKey: Option<Key>
    ghost var databaseCommitted: bool

    ghost predicate Changing(previous: Bundle, next: Bundle, before: Database)
      reads this
    {
      Proposed(previous, next, before) && Between(previous, next, before, databaseCommitted, bundle, journal, db)
    }

    constructor (bundle: Bundle, db: Database, fuse: Fuse)
      ensures this.bundle == bundle && this.db == db && this.fuse == fuse && journal == None
      ensures interactiveKey == None && !databaseCommitted
    {
      this.bundle, this.db, this.fuse := bundle, db, fuse;
      journal, interactiveKey, databaseCommitted := None, None, false;
    }

    /** Replaces the bundle file; an exception may come before or after the rename. */
    method WriteActiveKeyBundle(value: Bundle) returns (s: Status)
      modifies this`bundle, fuse
      ensures fuse.Ran(s, 2)
      ensures bundle == value || (!s.Ok? && bundle == old(bundle))
    {
      s := fuse.Primitive();
      if !s.Ok? { return; }
      bundle := value;
      s := fuse.Primitive();
    }

    method WriteCustodyJournal(value: CustodyJournal) returns (s: Status)
      modifies this`journal, fuse
      ensures fuse.Ran(s, 2)
      ensures journal == Some(value) || (!s.Ok? && journal == old(journal))
    {
      s := fuse.Primitive();
      if !s.Ok? { return; }
      journal := Some(value);
      s := fuse.Primitive();
    }

    method UnlinkJournal() returns (s: Status)
      modifies this`journal, fuse
      ensures fuse.Ran(s, 2)
      ensures journal == None || (!s.Ok? && journal == old(journal))
    {
      s := fuse.Primitive();
      if !s.Ok? { return; }
      journal := None;
      s := fuse.Primitive();
    }

    /** One transaction: generation, hash and both key checks. */
    method CommitGeneration(next: Bundle) returns (s: Status)
      modifies this`db, this`databaseCommitted, fuse
      ensures fuse.Ran(s, 2)
      ensures db == if old(fuse.Calm(1)) then Rebound(old(db), next) else old(db)
      ensures databaseCommitted <==> old(databaseCommitted) || old(fuse.Calm(1))
    {
      s := fuse.Primitive();
      if !s.Ok? { return; }
      db := Rebound(db, next);
      databaseCommitted := true;
      s := fuse.Primitive();
    }

    /** Recovery: the database generation says which of the journal's two bundles is the current one. */
    method RecoverInterruptedCustodyTransition(ghost previous: Bundle, ghost next: Bundle, ghost before: Database)
      returns (s: Status)
      requires Changing(previous, next, before)
      modifies this`bundle, this`journal, this`interactiveKey, fuse
      ensures Changing(previous, next, before) && fuse.Spent(s, 4)
      ensures s.Ok? ==> journal.None?
    {
      if journal.None? { return Ok; }
      var value := journal.value;
      if value.next.generation != value.previous.generation + 1 { return Threw; }
      if value.next.vaultId != value.previous.vaultId { return Threw; }
      var machineKey := value.previous.machine;
      if value.mac != machineKey { return Threw; }
      if db.bundleGeneration == value.previous.generation {
        s := WriteActiveKeyBundle(value.previous);
      } else if db.bundleGeneration == value.next.generation {
        s := WriteActiveKeyBundle(value.next);
      } else {
        s := Threw;
      }
      if !s.Ok? { return; }
      s := UnlinkJournal();
      interactiveKey := None;
    }

    /** One transition: journal, bundle, database, end of journal. It takes effect exactly when its fifth step, the
        commit of the database, is reached. A failed transaction is recovered in process; any other exception leaves
        the journal for a later recovery. */
    method CommitKeyBundleTransition(next: Bundle, interactive: Key) returns (s: Status)
      requires journal.None? && !databaseCommitted && Proposed(bundle, next, db)
      requires InteractiveKeyOf(next) == Some(interactive)
      modifies this, fuse
      ensures Changing(old(bundle), next, old(db))
      ensures fuse.Spent(s, 10) && (s.Ok? <==> old(fuse.Calm(8)))
      ensures databaseCommitted <==> old(fuse.Calm(TRANSITION_COMMIT))
      ensures s.Ok? ==> journal.None? && databaseCommitted && interactiveKey == Some(interactive)
      ensures s.Ok? ==> bundle == next && db == Rebound(old(db), next)
    {
      var previous := bundle;
      ghost var before := db;
      s := WriteCustodyJournal(CustodyJournal(previous, next, previous.machine));
      if !s.Ok? { return; }
      s := WriteActiveKeyBundle(next);
      if !s.Ok? { return; }
      s := CommitGeneration(next);
      if s.Died? { return; }
      if s.Threw? {
        s := RecoverInterruptedCustodyTransition(previous, next, before);
        if s.Ok? { s := Threw; }
        return;
      }
      s := UnlinkJournal();
      if !s.Ok? { return; }
      interactiveKey := Some(interactive);
    }
  }

  /** A transition that may die or throw anywhere, recoveries that may each be cut anywhere, then one with enough
      fuel: the bundle file is the one whose generation and hash the database holds, the journal is gone, and every
      value is readable as before. That includes transitions that replace the key the journal is authenticated
      with. It commits exactly when the first process reaches the commit of the database. */
  method TransitionAcrossCrashes(p: CustodyProcess, next: Bundle, interactive: Key, cuts: seq<Cut>)
    requires p.journal.None? && !p.databaseCommitted && Proposed(p.bundle, next, p.db)
    requires InteractiveKeyOf(next) == Some(interactive)
    modifies p, p.fuse
    ensures p.journal.None? && Sound(p.bundle, p.db) && p.db.bundleHash == p.bundle
    ensures p.bundle == if p.databaseCommitted then next else old(p.bundle)
    ensures p.db == if p.databaseCommitted then Rebound(old(p.db), next) else old(p.db)
    ensures p.databaseCommitted <==> old(p.fuse.Calm(TRANSITION_COMMIT))
  {
    ghost var previous, before := p.bundle, p.db;
    ReboundIsSound(previous, next, before);
    var s := p.CommitKeyBundleTransition(next, interactive);
    ghost var committed := p.databaseCommitted;
    for n := 0 to |cuts|
      invariant p.Changing(previous, next, before) && p.databaseCommitted == committed
    {
      p.fuse.Reset(cuts[n]);
      s := p.RecoverInterruptedCustodyTransition(previous, next, before);
    }
    p.fuse.Reset(Cut(5, Quiet));
    s := p.RecoverInterruptedCustodyTransition(previous, next, before);
  }

  /** Enrolment: refused when already enrolled; otherwise a proposed transition, because a vault without an
      interactive envelope has no interactive rows. It succeeds exactly with a passphrase, a draw that is not the
      machine key, and an undisturbed transition. */
  method EnrollInteractivePassphrase(p: CustodyProcess, newPassphrase: string, draw: Key, redraw: Key, salt: nat)
    returns (s: Status)
    requires p.journal.None? && !p.databaseCommitted && Sound(p.bundle, p.db)
    modifies p, p.fuse
    ensures s.Ok? <==>
              && old(p.bundle).interactive == None && newPassphrase != ""
              && !(draw == redraw == old(p.bundle).machine) && old(p.fuse.Calm(8))
    ensures s.Ok? ==>
              && Sound(p.bundle, p.db) && p.journal.None? && p.db.rows == old(p.db.rows)
              && p.bundle.generation == old(p.bundle.generation) + 1 && p.bundle.machine == old(p.bundle.machine)
              && p.bundle.interactive ==
                   Some(Envelope(newPassphrase, if draw != p.bundle.machine then draw else redraw))
              && old(p.bundle.interactive).None? && UnwrapInteractive(p.bundle, newPassphrase).Some?
    ensures old(p.bundle.interactive).Some? ==>
              s.Threw? && p.bundle == old(p.bundle) && p.db == old(p.db) && p.journal.None?
  {
    var next := EnrollInteractive(p.bundle, newPassphrase, draw, redraw, salt);
    if next.None? { return Threw; }
    RowsSurvive(p.bundle, next.value, p.db.rows);
    ReboundIsSound(p.bundle, next.value, p.db);
    s := p.CommitKeyBundleTransition(next.value, next.value.interactive.value.key);
  }

  /** Rotation of the passphrase: both data keys stay, so no row is touched. It succeeds exactly with the current
      passphrase, a new one, and an undisturbed transition. */
  method RotateInteractivePassphrase(p: CustodyProcess, current: string, newPassphrase: string, salt: nat)
    returns (s: Status)
    requires p.journal.None? && !p.databaseCommitted && Sound(p.bundle, p.db)
    modifies p, p.fuse
    ensures s.Ok? <==>
              && old(p.bundle).interactive != None && old(p.bundle).interactive.value.passphrase == current
              && current != "" && newPassphrase != "" && old(p.fuse.Calm(8))
    ensures s.Ok? ==>
              && Sound(p.bundle, p.db) && p.journal.None? && p.db.rows == old(p.db.rows)
              && p.bundle.generation == old(p.bundle.generation) + 1 && p.bundle.machine == old(p.bundle.machine)
              && p.bundle.interactive == Some(Envelope(newPassphrase, old(p.bundle).interactive.value.key))
              && InteractiveKeyOf(p.bundle) == InteractiveKeyOf(old(p.bundle))
              && UnwrapInteractive(p.bundle, newPassphrase).Some?
    ensures UnwrapInteractive(old(p.bundle), current).None? ==>
              s.Threw? && p.bundle == old(p.bundle) && p.db == old(p.db) && p.journal.None?
  {
    var next := RewrapInteractive(p.bundle, current, newPassphrase, salt);
    if next.None? { return Threw; }
    RowsSurvive(p.bundle, next.value, p.db.rows);
    ReboundIsSound(p.bundle, next.value, p.db);
    s := p.CommitKeyBundleTransition(next.value, next.value.interactive.value.key);
  }
}
