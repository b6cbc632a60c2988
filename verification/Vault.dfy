/**
 The vault's operations on rows, updated in place, and the plain map they refine.

 Every operation is one database transaction: it reports a refusal and leaves the rows as they were, or it has
 its whole effect. `interactiveKey` is the process's cached interactive key, empty while locked.
*/
module Vault {
  import opened Options
  import opened Records
  import opened PolicyRules
  import opened VaultState

  datatype Result<T> = Ok(value: T) | Refused

  predicate ScopeCharacter(c: char) {
    'A' <= c <= 'Z' || 'a' <= c <= 'z' || '0' <= c <= '9' || c in "._-"
  }

  predicate ValidScopeName(name: string) {
    name != "" && name[0] !in "._-" && forall k :: 0 <= k < |name| ==> ScopeCharacter(name[k])
  }

  /** By code point: a digit or ASCII letter, then digits, ASCII letters, hyphens, dots and underscores. */
  lemma ScopeNamesAre(name: string)
    ensures ValidScopeName(name) <==>
              && |name| >= 1 && name[0] !in {0x2D as char, 0x2E as char, 0x5F as char}
              && forall k :: 0 <= k < |name| ==>
                   var c := name[k] as int;
                   c in {0x2D, 0x2E, 0x5F} || 0x30 <= c < 0x3A || 0x41 <= c < 0x5B || 0x61 <= c < 0x7B
  {
    assert forall k :: 0 <= k < |name| ==>
      (ScopeCharacter(name[k]) <==>
         var c := name[k] as int;
         c in {0x2D, 0x2E, 0x5F} || 0x30 <= c < 0x3A || 0x41 <= c < 0x5B || 0x61 <= c < 0x7B);
  }

  const REMOVED_INTERNAL_SECRET_NAMES := {"_keyclasp_sso:config", "_keyclasp_sso:token", "_keyclasp_deadman:config",
                                          "_keyclasp_deadman:last_checkin", "__keyclasp_team_check"}

  /** The four forms of rename. */
  datatype Form =
    | RenameProject(fromProject: string, toProject: string)
    | RenameEnvironmentInProject(project: string, fromEnvironment: string, toEnvironment: string)
    | RenameEnvironmentAcrossAllProjects(fromEnvironment: string, toEnvironment: string)
    | RenameScope(fromProject: string, fromEnvironment: string, toProject: string, toEnvironment: string)

  predicate ValidForm(form: Form) {
    match form
    case RenameProject(from, to) => ValidScopeName(from) && ValidScopeName(to)
    case RenameEnvironmentInProject(project, from, to) =>
      ValidScopeName(project) && ValidScopeName(from) && ValidScopeName(to)
    case RenameEnvironmentAcrossAllProjects(from, to) => ValidScopeName(from) && ValidScopeName(to)
    case RenameScope(fromProject, fromEnvironment, toProject, toEnvironment) =>
      && ValidScopeName(fromProject) && ValidScopeName(fromEnvironment)
      && ValidScopeName(toProject) && ValidScopeName(toEnvironment)
  }

  predicate Selects(form: Form, id: Identity) {
    match form
    case RenameProject(from, _) => id.project == from
    case RenameEnvironmentInProject(project, from, _) => id.project == project && id.environment == from
    case RenameEnvironmentAcrossAllProjects(from, _) => id.environment == from
    case RenameScope(fromProject, fromEnvironment, _, _) =>
      id.project == fromProject && id.environment == fromEnvironment
  }

  function Destination(form: Form, id: Identity): Identity {
    match form
    case RenameProject(_, to) => id.(project := to)
    case RenameEnvironmentInProject(project, _, to) => Identity(project, to, id.name)
    case RenameEnvironmentAcrossAllProjects(_, to) => id.(environment := to)
    case RenameScope(_, _, toProject, toEnvironment) => Identity(toProject, toEnvironment, id.name)
  }

  function Selected(form: Form, rows: Rows): set<Identity> {
    set id | id in rows && Selects(form, id)
  }

  /** The collision query: selected rows whose destination already exists. */
  function Collisions(form: Form, rows: Rows): set<Identity> {
    set id | id in rows && Selects(form, id) && Destination(form, id) in rows
  }

  /** Different rows go to different places. */
  lemma DestinationsDiffer(form: Form, id: Identity, other: Identity)
    requires Selects(form, id) && Selects(form, other) && Destination(form, id) == Destination(form, other)
    ensures id == other
  {
  }

  /** Some moved row went to `id`. */
  ghost predicate Landed(form: Form, moved: set<Identity>, id: Identity) {
    exists s :: s in moved && id == Destination(form, s)
  }

  lemma LandedStep(form: Form, moved: set<Identity>, s: Identity, id: Identity)
    ensures Landed(form, moved + {s}, id) <==> Landed(form, moved, id) || id == Destination(form, s)
  {
    if Landed(form, moved, id) {
      var t :| t in moved && id == Destination(form, t);
      assert t in moved + {s};
    }
    if id == Destination(form, s) { assert s in moved + {s}; }
  }

  /** `after` is `before` with every key in `moved` replaced by its destination. */
  ghost predicate Remapped<V>(form: Form, before: map<Identity, V>, after: map<Identity, V>, moved: set<Identity>) {
    && (forall id :: id in after <==> (id in before && id !in moved) || Landed(form, moved, id))
    && (forall id :: id in before && id !in moved ==> after[id] == before[id])
    && (forall id :: id in moved ==> id in before && after[Destination(form, id)] == before[id])
  }

  /** Rows after some of the selected ones were re-encrypted to their destinations. */
  ghost predicate Moved(bundle: Bundle, form: Form, before: Rows, after: Rows, moved: set<Identity>) {
    && (forall id :: id in after <==> (id in before && id !in moved) || Landed(form, moved, id))
    && (forall id :: id in before && id !in moved ==> after[id] == before[id])
    && (forall id :: id in moved ==>
          id in before && after[Destination(form, id)] == Resealed(bundle, before[id], Destination(form, id)))
  }

  function Resealed(bundle: Bundle, row: Row, id: Identity): Row {
    Seal(bundle, id, row.recordId, row.keyClass, row.sealed.key, row.sealed.value)
  }

  lemma DestinationIsFree(bundle: Bundle, form: Form, before: Rows, after: Rows, moved: set<Identity>, id: Identity)
    requires Moved(bundle, form, before, after, moved) && Collisions(form, before) == {}
    requires id in Selected(form, before) && id !in moved && moved <= Selected(form, before)
    ensures Destination(form, id) !in after && id in after && after[id] == before[id]
    ensures forall s :: s in moved ==> Destination(form, s) != Destination(form, id) && Destination(form, s) != id
  {
    assert id !in Collisions(form, before);
    forall s | s in moved ensures Destination(form, s) != Destination(form, id) && Destination(form, s) != id {
      if Destination(form, s) == Destination(form, id) { DestinationsDiffer(form, s, id); }
      assert s !in Collisions(form, before);
    }
  }

  lemma KeysAfterMove(form: Form, before: Rows, after: Rows, moved: set<Identity>, id: Identity, row: Row)
    requires forall k :: k in after <==> (k in before && k !in moved) || Landed(form, moved, k)
    requires id in before && id !in moved && !Landed(form, moved, id)
    ensures forall k :: k in (after - {id})[Destination(form, id) := row] <==>
                          (k in before && k !in moved + {id}) || Landed(form, moved + {id}, k)
  {
    var next := (after - {id})[Destination(form, id) := row];
    forall k ensures k in next <==> (k in before && k !in moved + {id}) || Landed(form, moved + {id}, k) {
      LandedStep(form, moved, id, k);
    }
  }

  lemma MoveOne(bundle: Bundle, form: Form, before: Rows, after: Rows, moved: set<Identity>, id: Identity)
    requires Moved(bundle, form, before, after, moved) && Collisions(form, before) == {}
    requires id in Selected(form, before) && id !in moved && moved <= Selected(form, before)
    ensures var to := Destination(form, id);
            Moved(bundle, form, before, (after - {id})[to := Resealed(bundle, before[id], to)], moved + {id})
  {
    DestinationIsFree(bundle, form, before, after, moved, id);
    var to := Destination(form, id);
    var row := Resealed(bundle, before[id], to);
    var next := (after - {id})[to := row];
    KeysAfterMove(form, before, after, moved, id, row);
    assert id !in Collisions(form, before);
    forall s | s in moved ensures next[Destination(form, s)] == Resealed(bundle, before[s], Destination(form, s)) {
      assert Destination(form, s) in after && Destination(form, s) != to && Destination(form, s) != id;
    }
  }

  /** Moving rows keeps them sound. */
  lemma MovedIsSound(bundle: Bundle, form: Form, before: Rows, after: Rows, moved: set<Identity>)
    requires RowsSound(bundle, before) && Moved(bundle, form, before, after, moved) && moved <= Selected(form, before)
    ensures RowsSound(bundle, after)
  {
    forall id | id in after ensures RowSound(bundle, id, after[id]) {
      if !(id in before && id !in moved) {
        var s :| s in moved && id == Destination(form, s);
        assert RowSound(bundle, s, before[s]);
      }
    }
    forall id, other | id in after && other in after && after[id].recordId == after[other].recordId
      ensures id == other
    {
      var source := Source(form, before, after, moved, id, bundle);
      var otherSource := Source(form, before, after, moved, other, bundle);
      assert before[source].recordId == before[otherSource].recordId;
    }
  }

  /** Where a row of the new table came from. */
  ghost function Source(form: Form, before: Rows, after: Rows, moved: set<Identity>, id: Identity,
                        bundle: Bundle): (source: Identity)
    requires Moved(bundle, form, before, after, moved) && id in after
    ensures source in before && before[source].recordId == after[id].recordId
    ensures id == if source in moved then Destination(form, source) else source
  {
    if id in before && id !in moved then id
    else var s :| s in moved && id == Destination(form, s); s
  }

  /** A rename is a remapping of keys, for values, custody classes and record ids alike. */
  lemma MovedIsRemapping(bundle: Bundle, form: Form, before: Rows, after: Rows, moved: set<Identity>)
    requires Moved(bundle, form, before, after, moved)
    ensures Remapped(form, Meanings(before), Meanings(after), moved)
  {
    var old_, new_ := Meanings(before), Meanings(after);
    assert old_.Keys == before.Keys && new_.Keys == after.Keys;
    forall id | id in moved
      ensures id in old_ && Destination(form, id) in new_ && new_[Destination(form, id)] == old_[id]
    {
      assert Destination(form, id) in after;
    }
  }

  /** Every row of these can be decrypted. */
  ghost predicate Readable(rows: Rows, ids: set<Identity>, unlocked: bool) {
    unlocked || forall id :: id in ids && id in rows ==> rows[id].keyClass == Machine
  }

  lemma ReadableStep(rows: Rows, ids: seq<Identity>, n: nat, unlocked: bool)
    requires n < |ids| && ids[n] in rows
    ensures Readable(rows, Members(ids[..n + 1]), unlocked) <==>
              Readable(rows, Members(ids[..n]), unlocked) && (rows[ids[n]].keyClass == Machine || unlocked)
    ensures Readable(rows, Members(ids), unlocked) ==> Readable(rows, Members(ids[..n + 1]), unlocked)
  {
    assert Members(ids[..n + 1]) == Members(ids[..n]) + {ids[n]};
    assert Members(ids[..n + 1]) <= Members(ids);
  }

  predicate Distinct(ids: seq<Identity>) {
    forall i, j :: 0 <= i < j < |ids| ==> ids[i] != ids[j]
  }

  function Members(ids: seq<Identity>): set<Identity> {
    set id | id in ids
  }

  /** What a query returns: the chosen rows, each once, in some order. */
  method Select(chosen: set<Identity>) returns (ids: seq<Identity>)
    ensures Distinct(ids) && Members(ids) == chosen && |ids| == |chosen|
  {
    ids := [];
    var left := chosen;
    while left != {}
      invariant left <= chosen && Distinct(ids) && Members(ids) == chosen - left && |ids| + |left| == |chosen|
      decreases |left|
    {
      var id :| id in left;
      assert id !in Members(ids) && Members(ids + [id]) == Members(ids) + {id};
      ids, left := ids + [id], left - {id};
    }
  }

  /** The table after the listed rows were updated one by one. */
  function MovedInOrder(bundle: Bundle, form: Form, before: Rows, ids: seq<Identity>): Rows
    requires forall k :: 0 <= k < |ids| ==> ids[k] in before
  {
    if ids == [] then before
    else
      var after, id := MovedInOrder(bundle, form, before, ids[..|ids| - 1]), ids[|ids| - 1];
      (after - {id})[Destination(form, id) := Resealed(bundle, before[id], Destination(form, id))]
  }

  /** Rows to be moved: selected, and each listed once. */
  ghost predicate Movable(form: Form, before: Rows, ids: seq<Identity>) {
    && Collisions(form, before) == {} && Distinct(ids)
    && forall k :: 0 <= k < |ids| ==> ids[k] in before && Selects(form, ids[k])
  }

  lemma {:induction false} MovedInOrderIsMoved(bundle: Bundle, form: Form, before: Rows, ids: seq<Identity>)
    requires Movable(form, before, ids)
    ensures Moved(bundle, form, before, MovedInOrder(bundle, form, before, ids), Members(ids))
    decreases |ids|
  {
    if ids == [] {
      NothingMoved(bundle, form, before);
    } else {
      var fewer, id := ids[..|ids| - 1], ids[|ids| - 1];
      MovedInOrderIsMoved(bundle, form, before, fewer);
      assert Members(ids) == Members(fewer) + {id} && id !in Members(fewer);
      MoveOne(bundle, form, before, MovedInOrder(bundle, form, before, fewer), Members(fewer), id);
    }
  }

  lemma NothingMoved(bundle: Bundle, form: Form, rows: Rows)
    ensures Moved(bundle, form, rows, rows, {})
  {
  }

  /** Before every update of the loop its destination is free: the primary key is never violated. */
  lemma NextIsFree(bundle: Bundle, form: Form, before: Rows, ids: seq<Identity>, n: nat)
    requires Movable(form, before, ids) && n < |ids|
    ensures var now := MovedInOrder(bundle, form, before, ids[..n]);
            ids[n] in now && now[ids[n]] == before[ids[n]] && Destination(form, ids[n]) !in now
    ensures var now := MovedInOrder(bundle, form, before, ids[..n]); var to := Destination(form, ids[n]);
            MovedInOrder(bundle, form, before, ids[..n + 1]) ==
              (now - {ids[n]})[to := Resealed(bundle, before[ids[n]], to)]
  {
    MovedInOrderIsMoved(bundle, form, before, ids[..n]);
    DestinationIsFree(bundle, form, before, MovedInOrder(bundle, form, before, ids[..n]), Members(ids[..n]), ids[n]);
    assert ids[..n + 1][..n] == ids[..n];
  }

  lemma {:induction false} MovedKeepsCount(bundle: Bundle, form: Form, before: Rows, ids: seq<Identity>)
    requires Movable(form, before, ids)
    ensures |MovedInOrder(bundle, form, before, ids)| == |before|
    decreases |ids|
  {
    if ids == [] {
    } else {
      var n := |ids| - 1;
      MovedKeepsCount(bundle, form, before, ids[..n]);
      NextIsFree(bundle, form, before, ids, n);
      var to := Destination(form, ids[n]);
      var row := Resealed(bundle, before[ids[n]], to);
      ReplacedKeyKeepsCount(MovedInOrder(bundle, form, before, ids[..n]), ids[n], to, row);
    }
  }

  /** Replacing one key of a table by a new one keeps its size. */
  lemma ReplacedKeyKeepsCount(rows: Rows, id: Identity, to: Identity, row: Row)
    requires id in rows && (to == id || to !in rows)
    ensures |(rows - {id})[to := row]| == |rows|
  {
    var after := (rows - {id})[to := row];
    assert after.Keys == (rows.Keys - {id}) + {to};
    assert |rows.Keys - {id}| == |rows.Keys| - 1;
    assert |after.Keys| == |rows.Keys|;
  }

  /** What a rename means: soundness, the number of rows and everything but their keys are kept. */
  ghost predicate RenamedTo(bundle: Bundle, form: Form, before: Database, after: Database) {
    && Sound(bundle, after) && after == before.(rows := after.rows) && |after.rows| == |before.rows|
    && Remapped(form, Meanings(before.rows), Meanings(after.rows), Selected(form, before.rows))
  }

  lemma RenamedDatabase(bundle: Bundle, form: Form, before: Database, ids: seq<Identity>)
    requires Sound(bundle, before) && Movable(form, before.rows, ids) && Members(ids) == Selected(form, before.rows)
    ensures RenamedTo(bundle, form, before, before.(rows := MovedInOrder(bundle, form, before.rows, ids)))
  {
    var after := MovedInOrder(bundle, form, before.rows, ids);
    MovedInOrderIsMoved(bundle, form, before.rows, ids);
    MovedKeepsCount(bundle, form, before.rows, ids);
    MovedIsSound(bundle, form, before.rows, after, Selected(form, before.rows));
    MovedIsRemapping(bundle, form, before.rows, after, Selected(form, before.rows));
  }

  /** The table after an upsert of one row sealed under its own class. */
  lemma StoredIsSound(bundle: Bundle, rows: Rows, id: Identity, recordId: nat, keyClass: KeyClass, value: string)
    requires RowsSound(bundle, rows) && HasKey(bundle, keyClass)
    requires forall other :: other in rows && rows[other].recordId == recordId ==> other == id
    ensures var row := Seal(bundle, id, recordId, keyClass, KeyOf(bundle, keyClass), value);
            && RowsSound(bundle, rows[id := row])
            && Meanings(rows[id := row]) == Meanings(rows)[id := Meaning(value, keyClass, recordId)]
  {
    var row := Seal(bundle, id, recordId, keyClass, KeyOf(bundle, keyClass), value);
    assert Meanings(rows[id := row]) == Meanings(rows)[id := Meaning(value, keyClass, recordId)];
  }

  class OpenVault {
    var bundle: Bundle
    var db: Database
    var interactiveKey: Option<Key>

    ghost predicate Valid() reads this { Sound(bundle, db) }

    constructor (bundle: Bundle, db: Database)
      ensures this.bundle == bundle && this.db == db && interactiveKey == None
    {
      this.bundle, this.db, interactiveKey := bundle, db, None;
    }

    /** The key for a class: the machine key always, the interactive key only when cached and accepted by its check. */
    function KeyForClass(keyClass: KeyClass): (key: Option<Key>)
      reads this
      ensures Sound(bundle, db) && key.Some? ==> HasKey(bundle, keyClass) && key.value == KeyOf(bundle, keyClass)
      ensures keyClass == Machine ==> key.Some?
    {
      if keyClass == Machine then Some(bundle.machine)
      else if interactiveKey.Some? && interactiveKey == db.interactiveCheck then interactiveKey
      else None
    }

    predicate Unlocked() reads this { KeyForClass(Interactive).Some? }

    /** Nothing but the rows may differ. */
    twostate predicate OnlyRows() reads this {
      bundle == old(bundle) && interactiveKey == old(interactiveKey) && db == old(db).(rows := db.rows)
    }

    predicate RecordIdFree(id: Identity, recordId: nat) reads this {
      forall other :: other in db.rows && db.rows[other].recordId == recordId ==> other == id
    }

    /** Set is map update. Refused when a scope name is malformed, the class is locked, or a fresh record id is
        taken. */
    method StoreSecret(id: Identity, value: string, keyClass: KeyClass, freshId: nat) returns (stored: bool)
      requires Valid()
      modifies this`db
      ensures Valid() && OnlyRows()
      ensures stored <==>
                && ValidScopeName(id.project) && ValidScopeName(id.environment) && old(KeyForClass(keyClass)).Some?
                && (id in old(db.rows) || old(RecordIdFree(id, freshId)))
      ensures !stored ==> db == old(db)
      ensures stored ==> Meanings(db.rows) == Meanings(old(db.rows))[
                id := Meaning(value, keyClass, if id in old(db.rows) then old(db.rows)[id].recordId else freshId)]
    {
      if !ValidScopeName(id.project) || !ValidScopeName(id.environment) { return false; }
      var key := KeyForClass(keyClass);
      if key.None? { return false; }
      var recordId := if id in db.rows then db.rows[id].recordId else freshId;
      if id !in db.rows && !RecordIdFree(id, recordId) { return false; }
      StoredIsSound(bundle, db.rows, id, recordId, keyClass, value);
      db := db.(rows := db.rows[id := Seal(bundle, id, recordId, keyClass, key.value, value)]);
      return true;
    }

    /** Get is map lookup, for every name but the removed internal ones; interactive values only while unlocked. */
    method ResolveSecret(id: Identity) returns (result: Result<Option<string>>)
      requires Valid()
      ensures id.name in REMOVED_INTERNAL_SECRET_NAMES || id !in db.rows ==> result == Ok(None)
      ensures id.name !in REMOVED_INTERNAL_SECRET_NAMES && id in db.rows ==>
                result == if Classes(db.rows)[id] == Machine || Unlocked() then Ok(Some(View(db.rows)[id])) else Refused
    {
      if id.name in REMOVED_INTERNAL_SECRET_NAMES { return Ok(None); }
      if id !in db.rows { return Ok(None); }
      var row := db.rows[id];
      var key := KeyForClass(row.keyClass);
      if key.None? { return Refused; }
      var value := Open(row.sealed, key.value, BindingOf(bundle, id, row));
      assert RowSound(bundle, id, row);
      return if value.Some? then Ok(value) else Refused;
    }

    /** Delete is removal; it reports whether there was anything to remove. */
    method DeleteSecret(id: Identity) returns (deleted: bool)
      requires Valid()
      modifies this`db
      ensures Valid() && OnlyRows()
      ensures Meanings(db.rows) == Meanings(old(db.rows)) - {id}
      ensures deleted <==> id in old(db.rows)
    {
      deleted := id in db.rows;
      db := db.(rows := db.rows - {id});
    }

    function InScope(project: Option<string>, environment: Option<string>): set<Identity> reads this {
      set id | id in db.rows && Agrees(project, Some(id.project)) && Agrees(environment, Some(id.environment))
    }

    /** Bulk deletion removes exactly what was confirmed, or nothing when the scope changed meanwhile. */
    method DeleteBulkIfUnchanged(project: Option<string>, environment: Option<string>, expected: set<Identity>)
      returns (result: Result<nat>)
      requires Valid()
      modifies this`db
      ensures Valid() && OnlyRows()
      ensures result.Ok? <==>
                && (project.Some? || environment.Some?) && old(InScope(project, environment)) == expected
                && (project.Some? ==> ValidScopeName(project.value))
                && (environment.Some? ==> ValidScopeName(environment.value))
      ensures result.Refused? ==> db == old(db)
      ensures result.Ok? ==>
                && result.value == |expected| && Meanings(db.rows) == Meanings(old(db.rows)) - expected
                && InScope(project, environment) == {}
      ensures result.Ok? ==>
                forall id :: id in db.rows <==>
                  && id in old(db.rows)
                  && ((project != None && project.value != id.project) ||
                      (environment != None && environment.value != id.environment))
    {
      if project.None? && environment.None? { return Refused; }
      if project.Some? && !ValidScopeName(project.value) { return Refused; }
      if environment.Some? && !ValidScopeName(environment.value) { return Refused; }
      var current := InScope(project, environment);
      if current != expected { return Refused; }
      db := db.(rows := db.rows - current);
      return Ok(|current|);
    }

    /** One UPDATE of a row's key and ciphertext; its precondition is the table's primary-key constraint. */
    method UpdateMoved(id: Identity, to: Identity, row: Row)
      requires id in db.rows && (to == id || to !in db.rows)
      modifies this`db
      ensures db == old(db).(rows := (old(db.rows) - {id})[to := row])
    {
      db := db.(rows := (db.rows - {id})[to := row]);
    }

    /** Decrypts one listed row and seals it again under the same key at its destination. */
    method ReencryptRow(form: Form, before: Database, ids: seq<Identity>, n: nat) returns (done: bool)
      requires Sound(bundle, before) && Movable(form, before.rows, ids) && n < |ids|
      requires db == before.(rows := MovedInOrder(bundle, form, before.rows, ids[..n]))
      modifies this`db
      ensures done <==> before.rows[ids[n]].keyClass == Machine || old(Unlocked())
      ensures done ==> db == before.(rows := MovedInOrder(bundle, form, before.rows, ids[..n + 1]))
    {
      var id := ids[n];
      var row := before.rows[id];
      var key := KeyForClass(row.keyClass);
      if key.None? { return false; }
      assert RowSound(bundle, id, row);
      var value := Open(row.sealed, key.value, BindingOf(bundle, id, row));
      if value.None? { return false; }
      var to := Destination(form, id);
      NextIsFree(bundle, form, before.rows, ids, n);
      UpdateMoved(id, to, Seal(bundle, to, row.recordId, row.keyClass, key.value, value.value));
      return true;
    }

    /** The row-by-row loop of a rename, inside one transaction. It is rolled back when it needs a locked key. */
    method ReencryptMovedRows(form: Form, ids: seq<Identity>) returns (moved: bool)
      requires Valid() && Movable(form, db.rows, ids)
      modifies this`db
      ensures moved <==> Readable(old(db.rows), Members(ids), old(Unlocked()))
      ensures db == if moved then old(db).(rows := MovedInOrder(bundle, form, old(db.rows), ids)) else old(db)
    {
      var before := db;
      ghost var unlocked := Unlocked();
      for n := 0 to |ids|
        invariant db == before.(rows := MovedInOrder(bundle, form, before.rows, ids[..n]))
        invariant Readable(before.rows, Members(ids[..n]), unlocked)
      {
        ReadableStep(before.rows, ids, n, unlocked);
        var done := ReencryptRow(form, before, ids, n);
        if !done {
          db := before;
          return false;
        }
      }
      assert ids[..|ids|] == ids;
      return true;
    }

    /** Rename remaps keys. Refused when a name is malformed, a destination exists, or a selected row is locked. */
    method Rename(form: Form) returns (result: Result<nat>)
      requires Valid()
      modifies this`db
      ensures result.Ok? <==> ValidForm(form) && Collisions(form, old(db.rows)) == {} &&
                              Readable(old(db.rows), Selected(form, old(db.rows)), old(Unlocked()))
      ensures result.Refused? ==> db == old(db)
      ensures result.Ok? ==> result.value == |Selected(form, old(db.rows))| && RenamedTo(bundle, form, old(db), db)
    {
      if !ValidForm(form) { return Refused; }
      if Collisions(form, db.rows) != {} { return Refused; }
      ghost var before := db;
      var ids := Select(Selected(form, db.rows));
      ListedIsMovable(form, before.rows, ids);
      RenamedDatabase(bundle, form, before, ids);
      var moved := ReencryptMovedRows(form, ids);
      if !moved { return Refused; }
      return Ok(|ids|);
    }

    /** Every record of a project moves to another project. */
    method RenameProject(from: string, to: string) returns (result: Result<nat>)
      requires Valid()
      modifies this`db
      ensures result.Ok? <==>
                && ValidScopeName(from) && ValidScopeName(to)
                && forall id :: id in old(db.rows) && id.project == from ==>
                     && Identity(to, id.environment, id.name) !in old(db.rows)
                     && (old(db.rows)[id].keyClass == Machine || old(Unlocked()))
      ensures result.Refused? ==> db == old(db)
      ensures result.Ok? ==>
                && Valid() && OnlyRows() && result.value == |set id | id in old(db.rows) && id.project == from|
                && ProjectMoved(from, to, Meanings(old(db.rows)), Meanings(db.rows))
    {
      var form := Form.RenameProject(from, to);
      ProjectSelected(from, to, db.rows, Unlocked());
      ghost var before := db;
      result := Rename(form);
      if result.Ok? {
        ProjectIsMoved(bundle, from, to, before, db);
      }
    }

    /** Every record of an environment in one project moves to another environment of that project. */
    method RenameEnvironmentInProject(project: string, from: string, to: string) returns (result: Result<nat>)
      requires Valid()
      modifies this`db
      ensures result.Ok? <==>
                && ValidScopeName(project) && ValidScopeName(from) && ValidScopeName(to)
                && ScopeMovable(project, from, project, to, old(db.rows), old(Unlocked()))
      ensures result.Refused? ==> db == old(db)
      ensures result.Ok? ==>
                && Valid() && OnlyRows()
                && result.value == |set id | id in old(db.rows) && id.project == project && id.environment == from|
                && ScopeMoved(project, from, project, to, Meanings(old(db.rows)), Meanings(db.rows))
    {
      var form := Form.RenameEnvironmentInProject(project, from, to);
      ScopeSelected(form, project, from, project, to, db.rows, Unlocked());
      ghost var before := db;
      result := Rename(form);
      if result.Ok? {
        ScopeIsMoved(bundle, form, project, from, project, to, before, db);
      }
    }

    /** Every record of an environment, in whichever project, moves to another environment of its project. */
    method RenameEnvironmentAcrossAllProjects(from: string, to: string) returns (result: Result<nat>)
      requires Valid()
      modifies this`db
      ensures result.Ok? <==>
                && ValidScopeName(from) && ValidScopeName(to)
                && forall id :: id in old(db.rows) && id.environment == from ==>
                     && Identity(id.project, to, id.name) !in old(db.rows)
                     && (old(db.rows)[id].keyClass == Machine || old(Unlocked()))
      ensures result.Refused? ==> db == old(db)
      ensures result.Ok? ==>
                && Valid() && OnlyRows() && result.value == |set id | id in old(db.rows) && id.environment == from|
                && EnvironmentMoved(from, to, Meanings(old(db.rows)), Meanings(db.rows))
    {
      var form := Form.RenameEnvironmentAcrossAllProjects(from, to);
      EnvironmentSelected(from, to, db.rows, Unlocked());
      ghost var before := db;
      result := Rename(form);
      if result.Ok? {
        EnvironmentIsMoved(bundle, from, to, before, db);
      }
    }

    /** Every record of one environment of one project moves to another environment of another project. */
    method RenameScope(fromProject: string, fromEnvironment: string, toProject: string, toEnvironment: string)
      returns (result: Result<nat>)
      requires Valid()
      modifies this`db
      ensures result.Ok? <==>
                && ValidScopeName(fromProject) && ValidScopeName(fromEnvironment)
                && ValidScopeName(toProject) && ValidScopeName(toEnvironment)
                && ScopeMovable(fromProject, fromEnvironment, toProject, toEnvironment, old(db.rows), old(Unlocked()))
      ensures result.Refused? ==> db == old(db)
      ensures result.Ok? ==>
                && Valid() && OnlyRows()
                && result.value ==
                     |set id | id in old(db.rows) && id.project == fromProject && id.environment == fromEnvironment|
                && ScopeMoved(fromProject, fromEnvironment, toProject, toEnvironment,
                              Meanings(old(db.rows)), Meanings(db.rows))
    {
      var form := Form.RenameScope(fromProject, fromEnvironment, toProject, toEnvironment);
      ScopeSelected(form, fromProject, fromEnvironment, toProject, toEnvironment, db.rows, Unlocked());
      ghost var before := db;
      result := Rename(form);
      if result.Ok? {
        ScopeIsMoved(bundle, form, fromProject, fromEnvironment, toProject, toEnvironment, before, db);
      }
    }
  }

  // ---- the four forms, identity by identity -----------------------------------------------------------------------

  /** No destination exists, and no row of the scope needs a locked key. */
  ghost predicate ScopeMovable(p: string, e: string, q: string, f: string, rows: Rows, unlocked: bool) {
    forall id :: id in rows && id.project == p && id.environment == e ==>
      Identity(q, f, id.name) !in rows && (rows[id].keyClass == Machine || unlocked)
  }

  /** Every former (p, e, n) is at (q, f, n), none is left where it was, nothing else moved, nothing else is new. */
  ghost predicate ScopeMoved<V>(p: string, e: string, q: string, f: string, was: map<Identity, V>,
                                now: map<Identity, V>)
  {
    && (forall n :: Identity(p, e, n) in was ==>
          Identity(q, f, n) in now && now[Identity(q, f, n)] == was[Identity(p, e, n)] && Identity(p, e, n) !in now)
    && (forall id :: id in was && (id.project != p || id.environment != e) ==> id in now && now[id] == was[id])
    && (forall id :: id in now ==>
          id in was || (id.project == q && id.environment == f && Identity(p, e, id.name) in was))
  }

  ghost predicate ProjectMoved<V>(p: string, q: string, was: map<Identity, V>, now: map<Identity, V>) {
    && (forall e, n :: Identity(p, e, n) in was ==>
          Identity(q, e, n) in now && now[Identity(q, e, n)] == was[Identity(p, e, n)] && Identity(p, e, n) !in now)
    && (forall id :: id in was && id.project != p ==> id in now && now[id] == was[id])
    && (forall id :: id in now ==> id in was || (id.project == q && Identity(p, id.environment, id.name) in was))
  }

  ghost predicate EnvironmentMoved<V>(e: string, f: string, was: map<Identity, V>, now: map<Identity, V>) {
    && (forall p, n :: Identity(p, e, n) in was ==>
          Identity(p, f, n) in now && now[Identity(p, f, n)] == was[Identity(p, e, n)] && Identity(p, e, n) !in now)
    && (forall id :: id in was && id.environment != e ==> id in now && now[id] == was[id])
    && (forall id :: id in now ==> id in was || (id.environment == f && Identity(id.project, e, id.name) in was))
  }

  /** A rename that met no collision, as a remapping of whatever the table holds. */
  ghost predicate RemappedFreely<V>(form: Form, was: map<Identity, V>, now: map<Identity, V>) {
    && Remapped(form, was, now, SelectedIn(form, was))
    && forall id :: id in SelectedIn(form, was) ==> Destination(form, id) !in was
  }

  lemma RenamedFreely(bundle: Bundle, form: Form, before: Database, after: Database)
    requires RenamedTo(bundle, form, before, after) && Collisions(form, before.rows) == {}
    ensures RemappedFreely(form, Meanings(before.rows), Meanings(after.rows))
  {
    var was := Meanings(before.rows);
    assert SelectedIn(form, was) == Selected(form, before.rows);
    forall id | id in SelectedIn(form, was) ensures Destination(form, id) !in was {
      assert id !in Collisions(form, before.rows);
    }
  }

  lemma MovedIdentity<V>(form: Form, was: map<Identity, V>, now: map<Identity, V>, id: Identity)
    requires RemappedFreely(form, was, now) && id in was
    ensures Selects(form, id) ==>
              Destination(form, id) in now && now[Destination(form, id)] == was[id] && id !in now
    ensures !Selects(form, id) ==> id in now && now[id] == was[id]
  {
    if Selects(form, id) { assert Landed(form, SelectedIn(form, was), Destination(form, id)); }
  }

  lemma ScopeIsMoved(bundle: Bundle, form: Form, p: string, e: string, q: string, f: string, before: Database,
                     after: Database)
    requires form == RenameScope(p, e, q, f) || (form == RenameEnvironmentInProject(p, e, f) && p == q)
    requires RenamedTo(bundle, form, before, after) && Collisions(form, before.rows) == {}
    ensures ScopeMoved(p, e, q, f, Meanings(before.rows), Meanings(after.rows))
  {
    var was, now := Meanings(before.rows), Meanings(after.rows);
    RenamedFreely(bundle, form, before, after);
    forall id | id in was { MovedIdentity(form, was, now, id); }
    assert forall n :: Destination(form, Identity(p, e, n)) == Identity(q, f, n);
  }

  lemma ProjectIsMoved(bundle: Bundle, p: string, q: string, before: Database, after: Database)
    requires RenamedTo(bundle, RenameProject(p, q), before, after) && Collisions(RenameProject(p, q), before.rows) == {}
    ensures ProjectMoved(p, q, Meanings(before.rows), Meanings(after.rows))
  {
    var form, was, now := RenameProject(p, q), Meanings(before.rows), Meanings(after.rows);
    RenamedFreely(bundle, form, before, after);
    forall id | id in was { MovedIdentity(form, was, now, id); }
    assert forall e, n :: Destination(form, Identity(p, e, n)) == Identity(q, e, n);
  }

  lemma EnvironmentIsMoved(bundle: Bundle, e: string, f: string, before: Database, after: Database)
    requires var form := RenameEnvironmentAcrossAllProjects(e, f);
             RenamedTo(bundle, form, before, after) && Collisions(form, before.rows) == {}
    ensures EnvironmentMoved(e, f, Meanings(before.rows), Meanings(after.rows))
  {
    var form, was, now := RenameEnvironmentAcrossAllProjects(e, f), Meanings(before.rows), Meanings(after.rows);
    RenamedFreely(bundle, form, before, after);
    forall id | id in was { MovedIdentity(form, was, now, id); }
    assert forall p, n :: Destination(form, Identity(p, e, n)) == Identity(p, f, n);
  }

  /** No collision, and every selected row readable: row by row. */
  lemma AcceptedByRow(form: Form, rows: Rows, unlocked: bool)
    ensures Collisions(form, rows) == {} && Readable(rows, Selected(form, rows), unlocked) <==>
              forall id :: id in rows && Selects(form, id) ==>
                Destination(form, id) !in rows && (rows[id].keyClass == Machine || unlocked)
  {
    if Collisions(form, rows) == {} && Readable(rows, Selected(form, rows), unlocked) {
      forall id | id in rows && Selects(form, id)
        ensures Destination(form, id) !in rows && (rows[id].keyClass == Machine || unlocked)
      {
        assert id !in Collisions(form, rows) && id in Selected(form, rows);
      }
    }
  }

  /** What each form selects, and when it is accepted. */
  lemma ScopeSelected(form: Form, p: string, e: string, q: string, f: string, rows: Rows, unlocked: bool)
    requires form == RenameScope(p, e, q, f) || (form == RenameEnvironmentInProject(p, e, f) && p == q)
    ensures Selected(form, rows) == set id | id in rows && id.project == p && id.environment == e
    ensures Collisions(form, rows) == {} && Readable(rows, Selected(form, rows), unlocked) <==>
              ScopeMovable(p, e, q, f, rows, unlocked)
  {
    AcceptedByRow(form, rows, unlocked);
    assert forall id :: Selects(form, id) <==> id.project == p && id.environment == e;
    assert forall id :: Destination(form, id) == Identity(q, f, id.name);
  }

  lemma ProjectSelected(p: string, q: string, rows: Rows, unlocked: bool)
    ensures var form := RenameProject(p, q);
            && Selected(form, rows) == (set id | id in rows && id.project == p)
            && (Collisions(form, rows) == {} && Readable(rows, Selected(form, rows), unlocked) <==>
                  forall id :: id in rows && id.project == p ==>
                    Identity(q, id.environment, id.name) !in rows && (rows[id].keyClass == Machine || unlocked))
  {
    var form := RenameProject(p, q);
    AcceptedByRow(form, rows, unlocked);
    assert forall id :: Selects(form, id) <==> id.project == p;
    assert forall id :: Destination(form, id) == Identity(q, id.environment, id.name);
  }

  lemma EnvironmentSelected(e: string, f: string, rows: Rows, unlocked: bool)
    ensures var form := RenameEnvironmentAcrossAllProjects(e, f);
            && Selected(form, rows) == (set id | id in rows && id.environment == e)
            && (Collisions(form, rows) == {} && Readable(rows, Selected(form, rows), unlocked) <==>
                  forall id :: id in rows && id.environment == e ==>
                    Identity(id.project, f, id.name) !in rows && (rows[id].keyClass == Machine || unlocked))
  {
    var form := RenameEnvironmentAcrossAllProjects(e, f);
    AcceptedByRow(form, rows, unlocked);
    assert forall id :: Selects(form, id) <==> id.environment == e;
    assert forall id :: Destination(form, id) == Identity(id.project, f, id.name);
  }

  lemma ListedIsMovable(form: Form, before: Rows, ids: seq<Identity>)
    requires Collisions(form, before) == {} && Distinct(ids) && Members(ids) == Selected(form, before)
    ensures Movable(form, before, ids)
  {
    assert forall k :: 0 <= k < |ids| ==> ids[k] in Members(ids);
  }

  // ---- one rename undoes another ----------------------------------------------------------------------------------

  /** The rename in the opposite direction. */
  function Inverse(form: Form): Form {
    match form
    case RenameProject(from, to) => RenameProject(to, from)
    case RenameEnvironmentInProject(project, from, to) => RenameEnvironmentInProject(project, to, from)
    case RenameEnvironmentAcrossAllProjects(from, to) => RenameEnvironmentAcrossAllProjects(to, from)
    case RenameScope(fromProject, fromEnvironment, toProject, toEnvironment) =>
      RenameScope(toProject, toEnvironment, fromProject, fromEnvironment)
  }

  /** A destination keeps the name, lies in the scope the inverse selects, and leads back. */
  lemma DestinationInverts(form: Form, id: Identity)
    requires Selects(form, id)
    ensures Destination(form, id).name == id.name && Selects(Inverse(form), Destination(form, id))
    ensures Destination(Inverse(form), Destination(form, id)) == id
    ensures Selects(Inverse(form), id) ==> Destination(form, id) == id
  {
  }

  function SelectedIn<V>(form: Form, m: map<Identity, V>): set<Identity> {
    set id | id in m && Selects(form, id)
  }

  /** Two renames in opposite directions, neither of which met a collision. */
  ghost predicate ThereAndBack<V>(form: Form, before: map<Identity, V>, middle: map<Identity, V>,
                                  after: map<Identity, V>)
  {
    && (forall id :: id in SelectedIn(form, before) ==> Destination(form, id) !in before)
    && Remapped(form, before, middle, SelectedIn(form, before))
    && Remapped(Inverse(form), middle, after, SelectedIn(Inverse(form), middle))
  }

  lemma SelectedComesBack<V>(form: Form, before: map<Identity, V>, middle: map<Identity, V>, after: map<Identity, V>,
                             id: Identity)
    requires ThereAndBack(form, before, middle, after) && id in SelectedIn(form, before)
    ensures id in after && after[id] == before[id]
  {
    DestinationInverts(form, id);
    assert Landed(form, SelectedIn(form, before), Destination(form, id));
    assert Landed(Inverse(form), SelectedIn(Inverse(form), middle), id);
  }

  /** What a rename moved lies in the scope that the inverse selects. */
  lemma LandedIsSelected(form: Form, moved: set<Identity>, id: Identity)
    requires forall s :: s in moved ==> Selects(form, s)
    ensures Landed(form, moved, id) ==> Selects(Inverse(form), id)
  {
    if Landed(form, moved, id) {
      var s :| s in moved && id == Destination(form, s);
      DestinationInverts(form, s);
    }
  }

  lemma OthersStay<V>(form: Form, before: map<Identity, V>, middle: map<Identity, V>, after: map<Identity, V>,
                      id: Identity)
    requires ThereAndBack(form, before, middle, after) && id in before && !Selects(form, id)
    ensures !Selects(Inverse(form), id) ==> id in after && after[id] == before[id]
    ensures Selects(Inverse(form), id) ==> id !in after
  {
    assert id in middle && middle[id] == before[id];
    LandedIsSelected(Inverse(form), SelectedIn(Inverse(form), middle), id);
    assert Inverse(Inverse(form)) == form;
  }

  lemma NothingNewComesBack<V>(form: Form, before: map<Identity, V>, middle: map<Identity, V>,
                               after: map<Identity, V>, id: Identity)
    requires ThereAndBack(form, before, middle, after) && id in after
    requires forall other :: other in before ==> !Selects(Inverse(form), other)
    ensures id in before
  {
    if id !in middle || Selects(Inverse(form), id) {
      var s :| s in SelectedIn(Inverse(form), middle) && id == Destination(Inverse(form), s);
      assert Landed(form, SelectedIn(form, before), s);
      var t :| t in SelectedIn(form, before) && s == Destination(form, t);
      DestinationInverts(form, t);
    } else {
      LandedIsSelected(form, SelectedIn(form, before), id);
    }
  }

  lemma NeverInBothScopes<V>(form: Form, before: map<Identity, V>, middle: map<Identity, V>, after: map<Identity, V>,
                             id: Identity)
    requires ThereAndBack(form, before, middle, after) && id in before && Selects(Inverse(form), id)
    ensures !Selects(form, id)
  {
    if Selects(form, id) { DestinationInverts(form, id); }
  }

  /** Renaming there and back restores the vault if and only if nothing was in the target scope before. */
  lemma RenameRoundTripIff<V>(form: Form, before: map<Identity, V>, middle: map<Identity, V>, after: map<Identity, V>)
    requires ThereAndBack(form, before, middle, after)
    ensures after == before <==> forall id :: id in before ==> !Selects(Inverse(form), id)
  {
    if forall id :: id in before ==> !Selects(Inverse(form), id) {
      forall id | id in before ensures id in after && after[id] == before[id] {
        if Selects(form, id) {
          SelectedComesBack(form, before, middle, after, id);
        } else {
          OthersStay(form, before, middle, after, id);
        }
      }
      forall id | id in after ensures id in before { NothingNewComesBack(form, before, middle, after, id); }
    } else {
      var id :| id in before && Selects(Inverse(form), id);
      NeverInBothScopes(form, before, middle, after, id);
      OthersStay(form, before, middle, after, id);
    }
  }
}
