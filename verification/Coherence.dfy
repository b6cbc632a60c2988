/**
 The agreement between the authorization rules and the key class of every listed record, and how set, rename and a
 policy commit keep it. Whole runs of commands are in `CrashRuns`.
*/
module Coherence {
  import opened Options
  import opened Records
  import opened PolicyRules
  import opened VaultState
  import opened Vault
  import opened KeyBundle
  import opened CustodyTransition

  /** Names a listing shows. */
  predicate Listed(name: string) {
    !("__" <= name) && name !in REMOVED_INTERNAL_SECRET_NAMES
  }

  /** A name that begins with two underscores is hidden, one that merely has two characters is not. */
  lemma ListedNames(name: string)
    ensures Listed(name) <==>
              && !(|name| >= 2 && name[0] == '_' && name[1] == '_')
              && name !in {"_keyclasp_sso:config", "_keyclasp_sso:token", "_keyclasp_deadman:config",
                           "_keyclasp_deadman:last_checkin", "__keyclasp_team_check"}
  {
    if |name| >= 2 && name[0] == '_' && name[1] == '_' { assert "__" <= name; }
  }

  ghost predicate ListedCoherent(rules: seq<Rule>, default: Default, rows: Rows) {
    forall id :: id in rows && Listed(id.name) ==> rows[id].keyClass == Target(rules, default, id)
  }

  /** Selected rows that the rename check looks at. */
  function ListedSelected(form: Form, rows: Rows): set<Identity> {
    set id | id in Selected(form, rows) && Listed(id.name)
  }

  ghost predicate PreservesAuthorization(rules: seq<Rule>, default: Default, form: Form, ids: set<Identity>) {
    forall id :: id in ids ==> Target(rules, default, id) == Target(rules, default, Destination(form, id))
  }

  /** A rename that passed the check keeps listed records coherent. */
  lemma RenameKeepsListedCoherent(rules: seq<Rule>, default: Default, form: Form, before: Rows, after: Rows)
    requires ListedCoherent(rules, default, before)
    requires Remapped(form, Meanings(before), Meanings(after), Selected(form, before))
    requires PreservesAuthorization(rules, default, form, ListedSelected(form, before))
    ensures ListedCoherent(rules, default, after)
  {
    forall id | id in after && Listed(id.name) ensures after[id].keyClass == Target(rules, default, id) {
      var source := SourceOf(form, before, after, id);
      assert source in Selected(form, before) ==> source in ListedSelected(form, before);
    }
  }

  /** Where a row of a renamed table came from. */
  ghost function SourceOf(form: Form, before: Rows, after: Rows, id: Identity): (source: Identity)
    requires Remapped(form, Meanings(before), Meanings(after), Selected(form, before)) && id in after
    ensures source in before && before[source].keyClass == after[id].keyClass && source.name == id.name
    ensures id == if source in Selected(form, before) then Destination(form, source) else source
  {
    var old_, new_ := Meanings(before), Meanings(after);
    assert id in new_ && new_[id].keyClass == after[id].keyClass;
    if id in old_ && id !in Selected(form, before) then
      assert old_[id] == new_[id]; id
    else
      var s :| s in Selected(form, before) && id == Destination(form, s);
      assert old_[s] == new_[id]; s
  }

  lemma RenameKeepsCoherent(bundle: Bundle, rules: seq<Rule>, default: Default, form: Form, before: Database,
                            after: Database)
    requires Coherent(rules, default, Classes(before.rows)) && RenamedTo(bundle, form, before, after)
    requires PreservesAuthorization(rules, default, form, Selected(form, before.rows))
    ensures Coherent(rules, default, Classes(after.rows))
  {
    forall id | id in after.rows ensures after.rows[id].keyClass == Target(rules, default, id) {
      var source := SourceOf(form, before.rows, after.rows, id);
      assert Classes(before.rows)[source] == Target(rules, default, source);
    }
  }

  lemma CoherentRenamePreserves(bundle: Bundle, rules: seq<Rule>, default: Default, form: Form, before: Database,
                                after: Database)
    requires Coherent(rules, default, Classes(before.rows)) && RenamedTo(bundle, form, before, after)
    requires Coherent(rules, default, Classes(after.rows))
    ensures PreservesAuthorization(rules, default, form, Selected(form, before.rows))
  {
    forall id | id in Selected(form, before.rows)
      ensures Target(rules, default, id) == Target(rules, default, Destination(form, id))
    {
      assert Meanings(after.rows)[Destination(form, id)] == Meanings(before.rows)[id];
      assert Classes(after.rows)[Destination(form, id)] == Classes(before.rows)[id];
    }
  }

  /** For the agreement of all records, hidden ones included, the check would have to cover every selected row: a
      rename keeps it if and only if no selected row changes its authorization. */
  lemma RenameKeepsCoherentIff(bundle: Bundle, rules: seq<Rule>, default: Default, form: Form, before: Database,
                               after: Database)
    requires Coherent(rules, default, Classes(before.rows)) && RenamedTo(bundle, form, before, after)
    ensures Coherent(rules, default, Classes(after.rows)) <==>
              PreservesAuthorization(rules, default, form, Selected(form, before.rows))
  {
    if PreservesAuthorization(rules, default, form, Selected(form, before.rows)) {
      RenameKeepsCoherent(bundle, rules, default, form, before, after);
    }
    if Coherent(rules, default, Classes(after.rows)) {
      CoherentRenamePreserves(bundle, rules, default, form, before, after);
    }
  }

  const HIDDEN := Identity("a", "e", "__x")
  const LOCK_B := Rule(Selector(Some("b"), None, None), true)

  /** The check as it is lets a hidden record through: renaming project a to a locked project b leaves `__x` in
      machine custody. */
  lemma HiddenRecordLosesCoherence(rows: Rows)
    requires rows.Keys == {HIDDEN}
    ensures var form := RenameProject("a", "b");
            PreservesAuthorization([LOCK_B], MachineDefault, form, ListedSelected(form, rows))
    ensures Target([LOCK_B], MachineDefault, HIDDEN) == Machine
    ensures Target([LOCK_B], MachineDefault, Destination(RenameProject("a", "b"), HIDDEN)) == Interactive
  {
    assert LOCK_B in [LOCK_B];
    assert "__" <= HIDDEN.name;
    assert HIDDEN.project == "a";
    var q := QueryOf(HIDDEN);
    assert q.project != LOCK_B.selector.project.value by { assert q.project[0] != LOCK_B.selector.project.value[0]; }
    assert Matches(LOCK_B.selector, QueryOf(Destination(RenameProject("a", "b"), HIDDEN)));
  }

  /** Rows in their target classes are coherent, listed or not. */
  lemma TargetsAreCoherent(rules: seq<Rule>, default: Default, before: Rows, after: Rows)
    requires Classes(after) == TargetsOf(rules, default, before)
    ensures Coherent(rules, default, Classes(after)) && ListedCoherent(rules, default, after)
  {
    forall id | id in after ensures after[id].keyClass == Target(rules, default, id) {
      assert Classes(after)[id] == Target(rules, default, id);
    }
  }

  lemma StoredKeepsCoherent(rules: seq<Rule>, default: Default, before: Rows, after: Rows, id: Identity,
                            meaning: Meaning)
    requires ListedCoherent(rules, default, before) && meaning.keyClass == Target(rules, default, id)
    requires Meanings(after) == Meanings(before)[id := meaning]
    ensures ListedCoherent(rules, default, after)
  {
    forall other | other in after && Listed(other.name) ensures after[other].keyClass == Target(rules, default, other) {
      assert other in Meanings(after) && Meanings(after)[other].keyClass == after[other].keyClass;
      assert other != id ==> other in Meanings(before) && Meanings(before)[other].keyClass == before[other].keyClass;
    }
  }

  lemma RemovedKeepsCoherent(rules: seq<Rule>, default: Default, before: Rows, after: Rows, gone: set<Identity>)
    requires ListedCoherent(rules, default, before) && Meanings(after) == Meanings(before) - gone
    ensures ListedCoherent(rules, default, after)
  {
    forall other | other in after && Listed(other.name) ensures after[other].keyClass == Target(rules, default, other) {
      assert other in Meanings(after) && Meanings(after)[other].keyClass == after[other].keyClass;
      assert other in Meanings(before) && Meanings(before)[other].keyClass == before[other].keyClass;
    }
  }

  /** The check before a rename: no listed row may change its authorization. It fails exactly when some selected row,
      whose name does not begin with two underscores and is none of the removed names, changes its decision. */
  method CheckAuthorization(rules: seq<Rule>, default: Default, form: Form, rows: Rows) returns (preserved: bool)
    ensures preserved <==> PreservesAuthorization(rules, default, form, ListedSelected(form, rows))
    ensures !preserved <==>
              exists id :: id in rows && Selects(form, id)
                && !(|id.name| >= 2 && id.name[0] == '_' && id.name[1] == '_')
                && id.name !in {"_keyclasp_sso:config", "_keyclasp_sso:token", "_keyclasp_deadman:config",
                                "_keyclasp_deadman:last_checkin", "__keyclasp_team_check"}
                && var to := Destination(form, id);
                   Locked(rules, Query(id.project, id.environment, Some(id.name)), default) !=
                   Locked(rules, Query(to.project, to.environment, Some(id.name)), default)
  {
    forall id | id in rows { ListedNames(id.name); }
    var left := ListedSelected(form, rows);
    while left != {}
      invariant left <= ListedSelected(form, rows)
      invariant PreservesAuthorization(rules, default, form, ListedSelected(form, rows) - left)
      decreases |left|
    {
      var id :| id in left;
      var here := EvaluateAuthorizationRules(rules, QueryOf(id), default);
      var there := EvaluateAuthorizationRules(rules, QueryOf(Destination(form, id)), default);
      if here != there { return false; }
      left := left - {id};
    }
    return true;
  }

  class Session {
    const vault: OpenVault
    var rules: seq<Rule>
    var default: Default

    ghost predicate Valid() reads this, vault {
      vault.Valid() && Unique(rules) && ListedCoherent(rules, default, vault.db.rows)
    }

    /** A new vault has no rules and no records. */
    constructor (vault: OpenVault, default: Default)
      requires vault.Valid() && vault.db.rows == map[]
      ensures Valid() && this.vault == vault && rules == [] && this.default == default
    {
      this.vault, rules, this.default := vault, [], default;
    }

    /** Set chooses the class by evaluating the rules for the record. */
    method SetSecret(id: Identity, value: string, freshId: nat) returns (ok: bool)
      requires Valid()
      modifies vault`db
      ensures Valid()
      ensures !ok ==> vault.db == old(vault.db)
      ensures ok ==> exists recordId :: Meanings(vault.db.rows) ==
                       Meanings(old(vault.db.rows))[id := Meaning(value, Target(rules, default, id), recordId)]
    {
      var locked := EvaluateAuthorizationRules(rules, QueryOf(id), default);
      var keyClass := if locked then Interactive else Machine;
      ghost var before := vault.db.rows;
      ok := vault.StoreSecret(id, value, keyClass, freshId);
      if ok { StoredKeepsCoherent(rules, default, before, vault.db.rows, id, Meanings(vault.db.rows)[id]); }
    }

    method RenameScope(form: Form) returns (renamed: bool)
      requires Valid()
      modifies vault`db
      ensures Valid()
      ensures renamed ==> RenamedTo(vault.bundle, form, old(vault.db), vault.db)
      ensures !renamed ==> vault.db == old(vault.db)
    {
      var preserved := CheckAuthorization(rules, default, form, vault.db.rows);
      if !preserved { return false; }
      ghost var before := vault.db.rows;
      var result := vault.Rename(form);
      if result.Ok? { RenameKeepsListedCoherent(rules, default, form, before, vault.db.rows); }
      return result.Ok?;
    }

    /** The transaction of a policy commit: the rows follow the new rules, or neither changes. Then every record,
        listed or hidden, has the class its rules ask for. */
    method CommitPolicy(nextRules: seq<Rule>, nextDefault: Default) returns (ok: bool)
      requires Valid() && Unique(nextRules)
      modifies this`rules, this`default, vault`db
      ensures Valid()
      ensures ok ==> rules == nextRules && default == nextDefault && Coherent(rules, default, Classes(vault.db.rows))
      ensures ok ==> View(vault.db.rows) == View(old(vault.db.rows))
      ensures !ok ==> rules == old(rules) && default == old(default) && vault.db == old(vault.db)
    {
      ghost var before := vault.db.rows;
      var result := TransitionRecordCustody(vault, nextRules, nextDefault);
      if result.Refused? { return false; }
      TargetsAreCoherent(nextRules, nextDefault, before, vault.db.rows);
      rules, default := nextRules, nextDefault;
      return true;
    }
  }
}
