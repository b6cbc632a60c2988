/**
 The vault as a plain map from identities to what they mean, over whole runs.

 Every command is a new process on the stores the last one left: it is unlocked or not, succeeds or is refused, and
 may be cut anywhere. What is cut behind its commit is carried out, everything else leaves the vault as it was.
*/
module Refinement {
  import opened Options
  import opened Records
  import opened Crashes
  import opened PolicyRules
  import opened VaultState
  import opened Vault
  import opened KeyBundle
  import opened CustodyTransition
  import opened Custody
  import opened Sanitization

  /** The vault as its user sees it: no ciphertext, no keys, no generations. */
  datatype Plain = Plain(records: map<Identity, Meaning>, passphrase: Option<string>)
  {
    predicate Opens(given: string) { passphrase == Some(given) && given != "" }

    /** The record id is given to `id` or to nothing. */
    predicate IdFree(id: Identity, recordId: nat) {
      forall other :: other in records && records[other].recordId == recordId ==> other == id
    }
  }

  datatype Command =
    | Set(id: Identity, value: string, keyClass: KeyClass, freshId: nat, cut: Cut)
    | Delete(id: Identity, cut: Cut)
    | DeleteBulk(project: Option<string>, environment: Option<string>, expected: set<Identity>, cut: Cut)
    | Rename(form: Form, cut: Cut)
    | MoveCustody(rules: seq<Rule>, default: Default, cut: Cut, attempts: seq<Attempt>)
    | Enroll(newPassphrase: string, salt: nat, cut: Cut, cuts: seq<Cut>)
    | RotatePassphrase(newPassphrase: string, salt: nat, cut: Cut, cuts: seq<Cut>)
  {
    predicate OnKeys() { Enroll? || RotatePassphrase? }

    /** The command reaches the step that commits it. */
    predicate Commits() { cut.Reaches(if OnKeys() then TRANSITION_COMMIT else ROW_COMMIT) }
  }

  /** A transaction on rows commits in one step; nothing before it can be seen. */
  const ROW_COMMIT: nat := 1

  datatype Stores = Stores(bundle: Bundle, db: Database)

  function PlainOf(s: Stores): Plain {
    Plain(Meanings(s.db.rows), if s.bundle.interactive.Some? then Some(s.bundle.interactive.value.passphrase) else None)
  }

  ghost predicate Settled(s: Stores) { Sound(s.bundle, s.db) && s.db.sanitization.None? }

  /** Every record in the class its rules ask for. */
  function Reclassified(rules: seq<Rule>, default: Default, records: map<Identity, Meaning>): map<Identity, Meaning> {
    map id | id in records :: records[id].(keyClass := Target(rules, default, id))
  }

  /** The records of a project, of an environment, or of an environment in a project. */
  function Scope(project: Option<string>, environment: Option<string>, records: map<Identity, Meaning>)
    : set<Identity>
  {
    set id | id in records && Agrees(project, Some(id.project)) && Agrees(environment, Some(id.environment))
  }

  /** The commands that are carried out on this map, given this passphrase. */
  ghost predicate Accepts(command: Command, passphrase: string, plain: Plain) {
    match command
    case Set(id, _, keyClass, freshId, _) =>
      && ValidScopeName(id.project) && ValidScopeName(id.environment)
      && (keyClass == Machine || plain.Opens(passphrase)) && (id in plain.records || plain.IdFree(id, freshId))
    case Delete(id, _) => id in plain.records
    case DeleteBulk(project, environment, expected, _) =>
      && (project.Some? || environment.Some?) && expected == Scope(project, environment, plain.records)
      && (project.Some? ==> ValidScopeName(project.value))
      && (environment.Some? ==> ValidScopeName(environment.value))
    case Rename(form, _) => ValidForm(form) && RenameAccepted(form, plain.records, plain.Opens(passphrase))
    case MoveCustody(rules, default, _, _) =>
      plain.Opens(passphrase) || Reclassified(rules, default, plain.records) == plain.records
    case Enroll(newPassphrase, _, _, _) => plain.passphrase.None? && newPassphrase != ""
    case RotatePassphrase(newPassphrase, _, _, _) => plain.Opens(passphrase) && newPassphrase != ""
  }

  /** No destination exists, and every selected record can be read. */
  ghost predicate RenameAccepted(form: Form, records: map<Identity, Meaning>, unlocked: bool) {
    forall id :: id in records && Selects(form, id) ==>
      Destination(form, id) !in records && (records[id].keyClass == Machine || unlocked)
  }

  /** What a carried out command does. */
  ghost predicate Effect(command: Command, before: Plain, after: Plain) {
    match command
    case Set(id, value, keyClass, freshId, _) =>
      var recordId := if id in before.records then before.records[id].recordId else freshId;
      after == before.(records := before.records[id := Meaning(value, keyClass, recordId)])
    case Delete(id, _) => after == before.(records := before.records - {id})
    case DeleteBulk(_, _, expected, _) => after == before.(records := before.records - expected)
    case Rename(form, _) =>
      && after.passphrase == before.passphrase
      && Remapped(form, before.records, after.records, SelectedIn(form, before.records))
    case MoveCustody(rules, default, _, _) =>
      after == before.(records := Reclassified(rules, default, before.records))
    case Enroll(newPassphrase, _, _, _) => after == before.(passphrase := Some(newPassphrase))
    case RotatePassphrase(newPassphrase, _, _, _) => after == before.(passphrase := Some(newPassphrase))
  }

  /** One transaction on the plain map: carried out exactly when accepted; otherwise the map stays. */
  ghost predicate Transacts(command: Command, passphrase: string, done: bool, before: Plain, after: Plain) {
    && (done <==> Accepts(command, passphrase, before))
    && if done then Effect(command, before, after) else after == before
  }

  /** One command on the plain map: carried out exactly when accepted and not cut before its commit. */
  ghost predicate Simulates(command: Command, passphrase: string, done: bool, before: Plain, after: Plain) {
    && (done <==> Accepts(command, passphrase, before) && command.Commits())
    && if done then Effect(command, before, after) else after == before
  }

  method Opened(s: Stores, passphrase: string) returns (v: OpenVault)
    requires Settled(s)
    ensures fresh(v) && v.Valid() && v.bundle == s.bundle && v.db == s.db
    ensures v.Unlocked() <==> PlainOf(s).Opens(passphrase)
  {
    v := new OpenVault(s.bundle, s.db);
    v.interactiveKey := UnwrapInteractive(s.bundle, passphrase);
  }

  method ExecuteSet(s: Stores, command: Command, passphrase: string) returns (next: Stores, done: bool)
    requires Settled(s) && command.Set?
    ensures Settled(next) && (!done ==> next == s)
    ensures Transacts(command, passphrase, done, PlainOf(s), PlainOf(next))
  {
    var v := Opened(s, passphrase);
    IdFreeInMeanings(s.db.rows, command.id, command.freshId);
    done := v.StoreSecret(command.id, command.value, command.keyClass, command.freshId);
    next := Stores(v.bundle, v.db);
  }

  lemma IdFreeInMeanings(rows: Rows, id: Identity, recordId: nat)
    ensures (forall other :: other in rows && rows[other].recordId == recordId ==> other == id) <==>
              Plain(Meanings(rows), None).IdFree(id, recordId)
  {
    if Plain(Meanings(rows), None).IdFree(id, recordId) {
      forall other | other in rows && rows[other].recordId == recordId ensures other == id {
        assert Meanings(rows)[other].recordId == recordId;
      }
    }
  }

  method ExecuteDelete(s: Stores, command: Command, passphrase: string) returns (next: Stores, done: bool)
    requires Settled(s) && command.Delete?
    ensures Settled(next) && (!done ==> next == s)
    ensures Transacts(command, passphrase, done, PlainOf(s), PlainOf(next))
  {
    var v := Opened(s, passphrase);
    done := v.DeleteSecret(command.id);
    next := if done then Stores(v.bundle, v.db) else s;
  }

  method ExecuteDeleteBulk(s: Stores, command: Command, passphrase: string) returns (next: Stores, done: bool)
    requires Settled(s) && command.DeleteBulk?
    ensures Settled(next) && (!done ==> next == s)
    ensures Transacts(command, passphrase, done, PlainOf(s), PlainOf(next))
  {
    var v := Opened(s, passphrase);
    assert v.InScope(command.project, command.environment) ==
             Scope(command.project, command.environment, PlainOf(s).records);
    var result := v.DeleteBulkIfUnchanged(command.project, command.environment, command.expected);
    return Stores(v.bundle, v.db), result.Ok?;
  }

  method ExecuteRename(s: Stores, command: Command, passphrase: string) returns (next: Stores, done: bool)
    requires Settled(s) && command.Rename?
    ensures Settled(next) && (!done ==> next == s)
    ensures Transacts(command, passphrase, done, PlainOf(s), PlainOf(next))
  {
    var v := Opened(s, passphrase);
    AcceptedByRows(command.form, s.db.rows, v.Unlocked());
    var result := v.Rename(command.form);
    if result.Refused? { return s, false; }
    assert Selected(command.form, s.db.rows) == SelectedIn(command.form, Meanings(s.db.rows));
    return Stores(v.bundle, v.db), true;
  }

  lemma AcceptedByRows(form: Form, rows: Rows, unlocked: bool)
    ensures RenameAccepted(form, Meanings(rows), unlocked) <==>
              Collisions(form, rows) == {} && Readable(rows, Selected(form, rows), unlocked)
  {
    if RenameAccepted(form, Meanings(rows), unlocked) {
      forall id | id in rows && Selects(form, id)
        ensures Destination(form, id) !in rows && (rows[id].keyClass == Machine || unlocked)
      {
        assert id in Meanings(rows);
      }
    }
    if Collisions(form, rows) == {} && Readable(rows, Selected(form, rows), unlocked) {
      forall id | id in Meanings(rows) && Selects(form, id)
        ensures Destination(form, id) !in Meanings(rows) && (Meanings(rows)[id].keyClass == Machine || unlocked)
      {
        assert id !in Collisions(form, rows) && id in Selected(form, rows);
      }
    }
  }

  /** A random key that repeats none in use. */
  method FreshKey(bundle: Bundle) returns (key: Key)
    ensures key != bundle.machine && Some(key) != InteractiveKeyOf(bundle)
  {
    var interactive := if bundle.interactive.Some? then bundle.interactive.value.key else 0;
    key := 0;
    while key == bundle.machine || Some(key) == InteractiveKeyOf(bundle)
      invariant key <= bundle.machine + 1 + interactive
      decreases interactive + bundle.machine + 1 - key
    {
      key := key + 1;
    }
  }

  /** The cleanup that a tightening calls for, however often it is cut. */
  method Cleanup(s: Stores, attempts: seq<Attempt>, passphrase: string) returns (next: Stores)
    requires Tightening(s.bundle, s.db) && PlainOf(s).Opens(passphrase)
    ensures Settled(next) && next.db.rows == s.db.rows && next.bundle.interactive == s.bundle.interactive
    ensures next.bundle.generation == s.bundle.generation + if Retires(s.db) then 1 else 0
    ensures next.bundle.machine == s.bundle.machine <==> !Retires(s.db)
  {
    var fuse := new Fuse(Cut(0, Quiet));
    var p := new CustodyProcess(s.bundle, s.db, fuse);
    var key := FreshKey(s.bundle);
    SanitizeAcrossCrashes(p, attempts, Attempt(passphrase, key, key, 0, Cut(ATTEMPT_STEPS + 1, Quiet)), s.bundle, s.db);
    return Stores(p.bundle, p.db);
  }

  predicate AllInteractive(targets: Targets) {
    forall id :: id in targets ==> targets[id] == Interactive
  }

  /** Where a transition tightened anything, the machine key is replaced exactly when no row is left that uses it. */
  ghost predicate RetiredIff(before: Stores, after: Stores, targets: Targets) {
    var retired := Tightened(targets, before.db.rows) != {} && AllInteractive(targets);
    && after.bundle.generation == before.bundle.generation + (if retired then 1 else 0)
    && (after.bundle.machine != before.bundle.machine <==> retired)
  }

  /** Where a command is cut does not matter for whether it is accepted. */
  const NEVER := Cut(0, Quiet)

  /** A transition that has the keys it needs. */
  ghost predicate Ready(s: Stores, targets: Targets, passphrase: string) {
    && targets.Keys == s.db.rows.Keys
    && (Transitions(targets, s.db.rows) == {} || (s.bundle.interactive.Some? && PlainOf(s).Opens(passphrase)))
  }

  /** The rows of a custody transition, inside one database transaction. */
  method TransitionRows(s: Stores, rules: seq<Rule>, default: Default, passphrase: string)
    returns (moved: Option<Database>)
    requires Settled(s)
    ensures moved.Some? <==> Accepts(MoveCustody(rules, default, NEVER, []), passphrase, PlainOf(s))
    ensures moved.Some? ==>
              && Ready(s, TargetsOf(rules, default, s.db.rows), passphrase)
              && moved.value == TransitionedDatabase(s.bundle, TargetsOf(rules, default, s.db.rows), s.db)
              && Meanings(moved.value.rows) == Reclassified(rules, default, PlainOf(s).records)
              && Classes(moved.value.rows) == TargetsOf(rules, default, s.db.rows)
  {
    var v := Opened(s, passphrase);
    TransitionAccepted(s, rules, default, passphrase);
    var result := TransitionRecordCustody(v, rules, default);
    if result.Refused? { return None; }
    MovedMeanings(s.bundle, rules, default, s.db);
    return Some(v.db);
  }

  /** A custody transition, and its cleanup when it tightened anything: values stay and classes follow the rules. */
  method ExecuteMoveCustody(s: Stores, command: Command, passphrase: string) returns (next: Stores, done: bool)
    requires Settled(s) && command.MoveCustody?
    ensures Settled(next) && (!done ==> next == s)
    ensures Transacts(command, passphrase, done, PlainOf(s), PlainOf(next))
    ensures done ==> RetiredIff(s, next, TargetsOf(command.rules, command.default, s.db.rows))
  {
    var moved := TransitionRows(s, command.rules, command.default, passphrase);
    if moved.None? { return s, false; }
    ghost var targets := TargetsOf(command.rules, command.default, s.db.rows);
    next := FinishTransition(s, moved.value, targets, command.attempts, passphrase);
    return next, true;
  }

  lemma TransitionAccepted(s: Stores, rules: seq<Rule>, default: Default, passphrase: string)
    ensures Accepts(MoveCustody(rules, default, NEVER, []), passphrase, PlainOf(s)) <==>
              PlainOf(s).Opens(passphrase) || Transitions(TargetsOf(rules, default, s.db.rows), s.db.rows) == {}
  {
    MovesNothingIff(rules, default, s.db.rows);
  }

  lemma MovesNothingIff(rules: seq<Rule>, default: Default, rows: Rows)
    ensures Transitions(TargetsOf(rules, default, rows), rows) == {} <==>
              Reclassified(rules, default, Meanings(rows)) == Meanings(rows)
  {
    var targets, moved := TargetsOf(rules, default, rows), Reclassified(rules, default, Meanings(rows));
    if moved == Meanings(rows) {
      forall id | id in rows ensures rows[id].keyClass == targets[id] {
        assert moved[id] == Meanings(rows)[id];
      }
    } else {
      var id :| id in rows && moved[id] != Meanings(rows)[id];
      assert id in Transitions(targets, rows);
    }
  }

  lemma MovedMeanings(bundle: Bundle, rules: seq<Rule>, default: Default, db: Database)
    requires var targets := TargetsOf(rules, default, db.rows);
             Sound(bundle, db) && (Transitions(targets, db.rows) == {} || bundle.interactive.Some?)
    ensures Meanings(TransitionedDatabase(bundle, TargetsOf(rules, default, db.rows), db).rows) ==
              Reclassified(rules, default, Meanings(db.rows))
  {
    var targets := TargetsOf(rules, default, db.rows);
    forall id | id in db.rows
      ensures MeaningOf(Retargeted(bundle, targets, db.rows, Transitions(targets, db.rows))[id]) ==
                MeaningOf(db.rows[id]).(keyClass := targets[id])
    {
      RetargetedRow(bundle, targets, db.rows, id);
    }
  }

  /** What follows a committed transition: nothing, or the cleanup of a tightening. */
  method FinishTransition(s: Stores, moved: Database, ghost targets: Targets, attempts: seq<Attempt>,
                          passphrase: string)
    returns (next: Stores)
    requires Settled(s) && Ready(s, targets, passphrase)
    requires moved == TransitionedDatabase(s.bundle, targets, s.db) && Classes(moved.rows) == targets
    ensures Settled(next) && next.db.rows == moved.rows && next.bundle.interactive == s.bundle.interactive
    ensures RetiredIff(s, next, targets)
  {
    TransitionedIsSound(s.bundle, targets, s.db);
    RetiresIffAllInteractive(targets, moved);
    next := Stores(s.bundle, moved);
    if moved.sanitization.Some? {
      assert Tightened(targets, s.db.rows) <= Transitions(targets, s.db.rows);
      TighteningNeedsCleanup(s.bundle, targets, s.db);
      next := Cleanup(next, attempts, passphrase);
    }
  }

  lemma RetiresIffAllInteractive(targets: Targets, db: Database)
    requires Classes(db.rows) == targets
    ensures Retires(db) <==> AllInteractive(targets)
  {
    assert db.rows.Keys == Classes(db.rows).Keys;
    forall id | id in targets ensures targets[id] == db.rows[id].keyClass {
      assert Classes(db.rows)[id] == db.rows[id].keyClass;
    }
    if Retires(db) {
      forall id | id in targets ensures targets[id] == Interactive {
        assert targets[id] == Machine ==> id in OfClass(db.rows, Machine);
      }
    }
  }

  /** A new or another passphrase, by one journalled bundle transition that may be cut. */
  method ExecuteOnKeys(s: Stores, command: Command, passphrase: string) returns (next: Stores, done: bool)
    requires Settled(s) && command.OnKeys()
    ensures Settled(next) && (!done ==> next == s) && next.bundle.machine == s.bundle.machine
    ensures s.bundle.interactive.Some? ==> InteractiveKeyOf(next.bundle) == InteractiveKeyOf(s.bundle)
    ensures Simulates(command, passphrase, done, PlainOf(s), PlainOf(next))
  {
    var key := FreshKey(s.bundle);
    var successor;
    if command.Enroll? {
      successor := EnrollInteractive(s.bundle, command.newPassphrase, key, key, command.salt);
    } else {
      successor := RewrapInteractive(s.bundle, passphrase, command.newPassphrase, command.salt);
    }
    if successor.None? { return s, false; }
    RowsSurvive(s.bundle, successor.value, s.db.rows);
    var fuse := new Fuse(command.cut);
    var p := new CustodyProcess(s.bundle, s.db, fuse);
    TransitionAcrossCrashes(p, successor.value, successor.value.interactive.value.key, command.cuts);
    return Stores(p.bundle, p.db), p.bundle == successor.value;
  }

  /** One transaction on the rows, which commits or, cut before that, leaves no trace. */
  method ExecuteOnRows(s: Stores, command: Command, passphrase: string) returns (next: Stores, done: bool)
    requires Settled(s) && !command.OnKeys()
    ensures Settled(next) && (!done ==> next == s)
    ensures Simulates(command, passphrase, done, PlainOf(s), PlainOf(next))
  {
    var fuse := new Fuse(command.cut);
    var status := fuse.Primitive();
    if !status.Ok? { return s, false; }
    match command {
      case Set(_, _, _, _, _) => next, done := ExecuteSet(s, command, passphrase);
      case Delete(_, _) => next, done := ExecuteDelete(s, command, passphrase);
      case DeleteBulk(_, _, _, _) => next, done := ExecuteDeleteBulk(s, command, passphrase);
      case Rename(_, _) => next, done := ExecuteRename(s, command, passphrase);
      case MoveCustody(_, _, _, _) => next, done := ExecuteMoveCustody(s, command, passphrase);
    }
  }

  method Execute(s: Stores, command: Command, passphrase: string) returns (next: Stores, done: bool)
    requires Settled(s)
    ensures Settled(next) && (!done ==> next == s)
    ensures Simulates(command, passphrase, done, PlainOf(s), PlainOf(next))
  {
    if command.OnKeys() {
      next, done := ExecuteOnKeys(s, command, passphrase);
    } else {
      next, done := ExecuteOnRows(s, command, passphrase);
    }
  }

  /** A run of the plain map. */
  ghost predicate PlainRun(commands: seq<Command>, passphrases: seq<string>, outcomes: seq<bool>, run: seq<Plain>) {
    && |outcomes| == |commands| == |passphrases| && |run| == |commands| + 1
    && forall n :: 0 <= n < |commands| ==>
         Simulates(commands[n], passphrases[n], outcomes[n], run[n], run[n + 1])
  }

  /** Every run of the vault is a run of the plain map, command by command, outcomes included. */
  method RunRefinesMap(s: Stores, commands: seq<Command>, passphrases: seq<string>)
    returns (last: Stores, outcomes: seq<bool>, ghost run: seq<Plain>)
    requires Settled(s) && |passphrases| == |commands|
    ensures Settled(last) && PlainRun(commands, passphrases, outcomes, run)
    ensures run[0] == PlainOf(s) && run[|commands|] == PlainOf(last)
  {
    last, outcomes, run := s, [], [PlainOf(s)];
    for n := 0 to |commands|
      invariant Settled(last) && PlainRun(commands[..n], passphrases[..n], outcomes, run)
      invariant run[0] == PlainOf(s) && run[n] == PlainOf(last)
    {
      var done;
      last, done := Execute(last, commands[n], passphrases[n]);
      outcomes, run := outcomes + [done], run + [PlainOf(last)];
    }
    assert commands[..|commands|] == commands && passphrases[..|commands|] == passphrases;
  }

  /** Reading a settled vault gives the plain map, for every name but the removed internal ones: what is in machine
      custody always, the rest exactly with the passphrase. */
  method ReadBack(s: Stores, id: Identity, passphrase: string) returns (result: Result<Option<string>>)
    requires Settled(s) && id.name !in REMOVED_INTERNAL_SECRET_NAMES
    ensures var records := PlainOf(s).records;
            result == if id !in records then Result.Ok(None)
                      else if records[id].keyClass == Machine || PlainOf(s).Opens(passphrase)
                           then Result.Ok(Some(records[id].value)) else Refused
  {
    var v := Opened(s, passphrase);
    result := v.ResolveSecret(id);
  }
}
