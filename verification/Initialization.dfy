/**
 Creating a vault: key bundle, database and first policy, one after the other and without a journal.

 A cut before the bundle leaves nothing, and a cut behind the database is completed by the default migration of any
 later start. Between the two, the bundle stands alone: neither another `init` nor anything else gets past it.
*/
module Initialization {
  import opened Options
  import opened Crashes
  import opened PolicyRules
  import opened VaultState
  import opened KeyBundle
  import opened CrashRuns
  import P = PolicyCommit
  import R = Refinement

  datatype DatabaseFile = NoFile | EmptyFile | Created(db: Database)

  /** The empty passphrase stands for `--machine-only`. */
  function NewBundle(vaultId: nat, passphrase: string, machine: Key, interactive: Key, salt: nat): Bundle {
    Bundle(vaultId, 1, machine, if passphrase == "" then None else Some(Envelope(passphrase, interactive)), salt)
  }

  function NewDatabase(bundle: Bundle): Database {
    Database(map[], bundle.vaultId, bundle.generation, bundle, bundle.machine, InteractiveKeyOf(bundle), None, {})
  }

  function SeedOf(passphrase: string): Default {
    if passphrase == "" then MachineDefault else InteractiveDefault
  }

  const NO_POLICY := P.Stores(None, None, None, map[])

  // The steps that make the bundle and the database visible, and all steps of `InitializeVault`.
  const BUNDLE_RENAME: nat := 1
  const BUNDLE_STEPS: nat := 2
  const DATABASE_OPEN: nat := 3
  const DATABASE_COMMIT: nat := 4
  const VAULT_STEPS: nat := 5

  class VaultDirectory {
    const fuse: Fuse
    var bundle: Option<Bundle>
    var database: DatabaseFile

    constructor (fuse: Fuse)
      ensures this.fuse == fuse && bundle == None && database == NoFile
    {
      this.fuse, bundle, database := fuse, None, NoFile;
    }

    /** A bundle without its database. */
    predicate Stuck() reads this { bundle.Some? && !database.Created? }

    method WriteActiveKeyBundle(next: Bundle) returns (s: Status)
      modifies this`bundle, fuse
      ensures fuse.Ran(s, BUNDLE_STEPS)
      ensures bundle == if old(fuse.Calm(BUNDLE_RENAME)) then Some(next) else old(bundle)
    {
      s := fuse.Primitive();
      if !s.Ok? { return; }
      bundle := Some(next);
      s := fuse.Primitive();
    }

    /** Opening creates an empty file; the tables come with one transaction. */
    method CreateDualKeyVault(next: Bundle) returns (s: Status)
      modifies this`database, fuse
      ensures fuse.Ran(s, 3)
      ensures database == if old(fuse.Calm(2)) then Created(NewDatabase(next))
                          else if old(fuse.Calm(1)) then EmptyFile else old(database)
    {
      ghost var cut := fuse.Left();
      s := fuse.Primitive();
      ghost var later := fuse.Left();
      if !s.Ok? {
        RunsShort(cut, later, s, 1, 3);
        return;
      }
      database := EmptyFile;
      ReachesLater(cut, 1, 1);
      s := CreateTables(next);
      RunsOn(cut, later, fuse.Left(), s, 1, 2);
    }

    method CreateTables(next: Bundle) returns (s: Status)
      modifies this`database, fuse
      ensures fuse.Ran(s, 2)
      ensures database == if old(fuse.Calm(1)) then Created(NewDatabase(next)) else old(database)
    {
      s := fuse.Primitive();
      if !s.Ok? { return; }
      database := Created(NewDatabase(next));
      s := fuse.Primitive();
    }

    /** Bundle first, then the database file, then its tables. A key file or a database in the way stops it. */
    method InitializeVault(next: Bundle) returns (s: Status)
      modifies this, fuse
      ensures old(bundle).Some? || old(database) != NoFile ==>
                s.Threw? && bundle == old(bundle) && database == old(database)
      ensures old(bundle).None? && old(database) == NoFile ==>
                && fuse.Ran(s, VAULT_STEPS)
                && bundle == (if old(fuse.Calm(BUNDLE_RENAME)) then Some(next) else None)
                && database == (if old(fuse.Calm(DATABASE_COMMIT)) then Created(NewDatabase(next))
                                else if old(fuse.Calm(DATABASE_OPEN)) then EmptyFile else NoFile)
    {
      if bundle.Some? || database != NoFile { return Threw; }
      ghost var cut := fuse.Left();
      s := WriteActiveKeyBundle(next);
      ghost var later := fuse.Left();
      if !s.Ok? {
        RunsShort(cut, later, s, BUNDLE_STEPS, VAULT_STEPS);
        return;
      }
      ReachesLater(cut, BUNDLE_STEPS, 1);
      ReachesLater(cut, BUNDLE_STEPS, 2);
      s := CreateDualKeyVault(next);
      RunsOn(cut, later, fuse.Left(), s, BUNDLE_STEPS, 3);
    }

    /** Every command but `init` opens the database first. */
    method OpenVault() returns (vault: Option<R.Stores>)
      ensures vault == if bundle.Some? && database.Created? then Some(R.Stores(bundle.value, database.db)) else None
    {
      return if bundle.Some? && database.Created? then Some(R.Stores(bundle.value, database.db)) else None;
    }
  }

  /** A stuck directory stays as it is: every further `init` throws, and no vault is ever opened. */
  method RetryStuck(d: VaultDirectory, bundles: seq<Bundle>)
    returns (results: seq<Status>, vaults: seq<Option<R.Stores>>)
    requires d.Stuck()
    modifies d, d.fuse
    ensures d.Stuck() && d.bundle == old(d.bundle) && d.database == old(d.database)
    ensures |results| == |vaults| == |bundles| && (forall s :: s in results ==> s == Threw)
    ensures forall vault :: vault in vaults ==> vault == None
  {
    results, vaults := [], [];
    for n := 0 to |bundles|
      invariant d.Stuck() && d.bundle == old(d.bundle) && d.database == old(d.database)
      invariant |results| == |vaults| == n && (forall s :: s in results ==> s == Threw)
      invariant forall vault :: vault in vaults ==> vault == None
    {
      var s := d.InitializeVault(bundles[n]);
      var vault := d.OpenVault();
      results, vaults := results + [s], vaults + [vault];
    }
  }

  /** One start after `init`: its passphrase, the key it draws for the first policy, and how it is cut. */
  datatype Start = Start(passphrase: string, freshKey: nat, cut: Cut, cuts: seq<Cut>)

  /** The first policy: committed by `init`, or by the default migration of a later start, which asks for the
      passphrase where the default is interactive. */
  method CommitFirstPolicy(policy: P.Stores, fuse: Fuse, default: Default, start: Start) returns (next: P.Stores)
    requires P.Settled(policy) && policy.classes == map[]
    requires policy == NO_POLICY || FirstPolicy(policy, default)
    modifies fuse
    ensures P.Settled(next) && next.classes == map[]
    ensures FirstPolicy(next, default) <==> FirstPolicy(policy, default) || old(fuse.Calm(P.POLICY_COMMIT))
    ensures next == NO_POLICY || FirstPolicy(next, default)
  {
    if policy.document.Some? { return policy; }
    var p := new P.PolicyProcess(policy, fuse);
    ghost var after := P.Committed(policy, P.NextDocument(None, default, [], start.freshKey), P.NoMutation);
    P.CommitAcrossCrashes(p, None, default, [], start.freshKey, P.NoMutation, start.cuts, policy, after);
    return p.stores;
  }

  /** A policy without rules, with the default the vault was created with. */
  predicate FirstPolicy(policy: P.Stores, default: Default) {
    policy.document.Some? && policy.document.value.rules == [] && policy.document.value.default == default
  }

  /** One `init` that may be cut anywhere, then any later starts, then one that is not cut and has the passphrase. The
      directory is untouched if and only if the bundle was not written, it holds a steady world with no records, no
      rules and the chosen default if and only if the database was committed, and it is stuck exactly in between. A
      vault with a passphrase then locks everything, and one without locks nothing. The two data keys are independent
      draws. */
  method InitializeAcrossCrashes(vaultId: nat, passphrase: string, machine: Key, interactive: Key, salt: nat,
                                 first: Start, starts: seq<Start>, freshKey: nat)
    returns (d: VaultDirectory, world: Option<World>)
    requires machine != interactive
    ensures d.bundle.None? && d.database == NoFile <==> !first.cut.Reaches(BUNDLE_RENAME)
    ensures d.Stuck() <==> first.cut.StopsIn(BUNDLE_RENAME, DATABASE_COMMIT)
    ensures world.Some? <==> first.cut.Reaches(DATABASE_COMMIT)
    ensures world.Some? ==>
              && Steady(world.value) && world.value.Rules() == []
              && world.value.CurrentDefault() == SeedOf(passphrase)
              && world.value.Records() == R.Plain(map[], if passphrase == "" then None else Some(passphrase))
              && world.value.vault.bundle.machine == machine && world.value.vault.bundle.generation == 1
              && InteractiveKeyOf(world.value.vault.bundle) == (if passphrase == "" then None else Some(interactive))
    ensures world.Some? ==>
              forall q :: Locked(world.value.Rules(), q, world.value.CurrentDefault()) <==> passphrase != ""
  {
    var next := NewBundle(vaultId, passphrase, machine, interactive, salt);
    var fuse := new Fuse(first.cut);
    d := new VaultDirectory(fuse);
    var s := d.InitializeVault(next);
    var vault := d.OpenVault();
    if vault.None? { return d, None; }
    var default := SeedOf(passphrase);
    var policy := NO_POLICY;
    if s.Ok? { policy := CommitFirstPolicy(policy, fuse, default, first); }
    for n := 0 to |starts|
      invariant d.bundle == Some(next) && d.database == Created(NewDatabase(next)) && d.fuse == fuse
      invariant P.Settled(policy) && policy.classes == map[]
      invariant policy == NO_POLICY || FirstPolicy(policy, default)
      invariant fresh(fuse) && fresh(d)
    {
      if passphrase == "" || UnwrapInteractive(next, starts[n].passphrase).Some? {
        fuse.Reset(starts[n].cut);
        policy := CommitFirstPolicy(policy, fuse, default, starts[n]);
      }
    }
    fuse.Reset(Cut(P.COMMIT_STEPS, Quiet));
    policy := CommitFirstPolicy(policy, fuse, default, Start(passphrase, freshKey, Cut(0, Quiet), []));
    world := Some(World(vault.value, policy, default));
  }
}
