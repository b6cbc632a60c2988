/**
 Moving every record to the key class its rules ask for, inside the transaction that commits the policy.

 `targets` gives every row's class under the new rules; the row loop works from it alone.
*/
module CustodyTransition {
  import opened Options
  import opened Records
  import opened PolicyRules
  import opened VaultState
  import opened Vault

  type Targets = map<Identity, KeyClass>

  function TargetsOf(rules: seq<Rule>, default: Default, rows: Rows): Targets {
    Transitioned(rules, default, Classes(rows))
  }

  /** Rows whose class is not the one asked for. */
  function Transitions(targets: Targets, rows: Rows): set<Identity> {
    set id | id in rows && id in targets && rows[id].keyClass != targets[id]
  }

  function Tightened(targets: Targets, rows: Rows): set<Identity> {
    set id | id in rows && id in targets && rows[id].keyClass == Machine && targets[id] == Interactive
  }

  function Retarget(bundle: Bundle, id: Identity, row: Row, target: KeyClass): Row
    requires HasKey(bundle, target)
  {
    Seal(bundle, id, row.recordId, target, KeyOf(bundle, target), row.sealed.value)
  }

  /** The table after the rows in `done` were sealed again for their target class. */
  function Retargeted(bundle: Bundle, targets: Targets, rows: Rows, done: set<Identity>): Rows
    requires done <= targets.Keys && (done == {} || bundle.interactive.Some?)
  {
    map id | id in rows :: if id in done then Retarget(bundle, id, rows[id], targets[id]) else rows[id]
  }

  /** What the database file keeps of the rows that left machine custody. */
  function Residue(targets: Targets, rows: Rows): set<Sealed> {
    set id | id in Tightened(targets, rows) :: rows[id].sealed
  }

  function TransitionedDatabase(bundle: Bundle, targets: Targets, db: Database): Database
    requires Transitions(targets, db.rows) == {} || bundle.interactive.Some?
  {
    db.(rows := Retargeted(bundle, targets, db.rows, Transitions(targets, db.rows)),
        residue := db.residue + Residue(targets, db.rows),
        sanitization := if Tightened(targets, db.rows) != {} then Some(bundle.generation) else db.sanitization)
  }

  lemma RetargetedRow(bundle: Bundle, targets: Targets, rows: Rows, id: Identity)
    requires RowsSound(bundle, rows) && (Transitions(targets, rows) == {} || bundle.interactive.Some?)
    requires targets.Keys == rows.Keys && id in rows
    ensures var row := Retargeted(bundle, targets, rows, Transitions(targets, rows))[id];
            RowSound(bundle, id, row) && MeaningOf(row) == MeaningOf(rows[id]).(keyClass := targets[id])
  {
    assert RowSound(bundle, id, rows[id]);
    assert id in Transitions(targets, rows) <==> rows[id].keyClass != targets[id];
  }

  lemma RetargetedRows(bundle: Bundle, targets: Targets, rows: Rows)
    requires RowsSound(bundle, rows) && targets.Keys == rows.Keys
    requires Transitions(targets, rows) == {} || bundle.interactive.Some?
    ensures var after := Retargeted(bundle, targets, rows, Transitions(targets, rows));
            && RowsSound(bundle, after) && View(after) == View(rows) && Classes(after) == targets
            && (forall id :: id in rows ==> after[id].recordId == rows[id].recordId)
  {
    var after := Retargeted(bundle, targets, rows, Transitions(targets, rows));
    forall id | id in rows
      ensures RowSound(bundle, id, after[id]) && after[id].recordId == rows[id].recordId
      ensures after[id].sealed.value == rows[id].sealed.value && after[id].keyClass == targets[id]
    {
      RetargetedRow(bundle, targets, rows, id);
      var meaning := MeaningOf(after[id]);
      assert meaning.recordId == rows[id].recordId && meaning.value == rows[id].sealed.value;
      assert meaning.keyClass == targets[id];
    }
  }

  /** Moving custody keeps the vault sound, its values and record ids, and gives every row its target class. */
  lemma TransitionedIsSound(bundle: Bundle, targets: Targets, db: Database)
    requires Sound(bundle, db) && targets.Keys == db.rows.Keys
    requires Transitions(targets, db.rows) == {} || bundle.interactive.Some?
    ensures var after := TransitionedDatabase(bundle, targets, db);
            && Sound(bundle, after) && View(after.rows) == View(db.rows) && Classes(after.rows) == targets
            && (forall id :: id in db.rows ==> after.rows[id].recordId == db.rows[id].recordId)
  {
    RetargetedRows(bundle, targets, db.rows);
    if Tightened(targets, db.rows) == {} {
      assert Residue(targets, db.rows) == {};
    }
  }

  lemma RetargetOne(bundle: Bundle, targets: Targets, rows: Rows, done: set<Identity>, id: Identity)
    requires id in rows && bundle.interactive.Some? && done + {id} <= targets.Keys
    ensures Retargeted(bundle, targets, rows, done + {id}) ==
              Retargeted(bundle, targets, rows, done)[id := Retarget(bundle, id, rows[id], targets[id])]
  {
  }

  /** The class every row should have, found by evaluating the rules for each of them, whatever its name. */
  method EvaluateTargets(rules: seq<Rule>, default: Default, rows: Rows) returns (targets: Targets)
    ensures targets == TargetsOf(rules, default, rows)
  {
    targets := map[];
    var left := rows.Keys;
    while left != {}
      invariant left <= rows.Keys && targets.Keys == rows.Keys - left
      invariant forall id :: id in targets ==> targets[id] == Target(rules, default, id)
      decreases |left|
    {
      var id :| id in left;
      var locked := EvaluateAuthorizationRules(rules, QueryOf(id), default);
      targets := targets[id := if locked then Interactive else Machine];
      left := left - {id};
    }
  }

  /** Opens one row under its source key and seals it under its target key. */
  method TransitionRow(v: OpenVault, before: Database, targets: Targets, id: Identity, interactiveKey: Key,
                       ghost done: set<Identity>)
    requires Sound(v.bundle, before) && v.bundle.interactive.Some? && interactiveKey == v.bundle.interactive.value.key
    requires id in Transitions(targets, before.rows) && id !in done && done <= targets.Keys
    requires v.db == before.(rows := Retargeted(v.bundle, targets, before.rows, done))
    modifies v`db
    ensures v.db == before.(rows := Retargeted(v.bundle, targets, before.rows, done + {id}))
  {
    var row := before.rows[id];
    assert RowSound(v.bundle, id, row);
    var sourceKey := if row.keyClass == Interactive then interactiveKey else v.bundle.machine;
    var targetKey := if targets[id] == Interactive then interactiveKey else v.bundle.machine;
    var value := Open(row.sealed, sourceKey, BindingOf(v.bundle, id, row));
    RetargetOne(v.bundle, targets, before.rows, done, id);
    v.db := v.db.(rows := v.db.rows[id := Seal(v.bundle, id, row.recordId, targets[id], targetKey, value.value)]);
  }

  datatype Moved = Moved(changed: nat, tightened: nat, machineRemaining: nat)

  ghost predicate TransitionCounts(moved: Moved, targets: Targets, rows: Rows, after: Rows) {
    && moved.changed == |Transitions(targets, rows)| && moved.tightened == |Tightened(targets, rows)|
    && moved.machineRemaining == |OfClass(after, Machine)|
  }

  method RetargetRows(v: OpenVault, targets: Targets, ids: seq<Identity>, interactiveKey: Key)
    requires v.Valid() && v.bundle.interactive.Some? && interactiveKey == v.bundle.interactive.value.key
    requires Distinct(ids) && Members(ids) == Transitions(targets, v.db.rows)
    modifies v`db
    ensures v.db == old(v.db).(rows := Retargeted(v.bundle, targets, old(v.db.rows), Members(ids)))
  {
    var before := v.db;
    assert Retargeted(v.bundle, targets, before.rows, {}) == before.rows;
    assert Members(ids[..0]) == {};
    for n := 0 to |ids|
      invariant Members(ids[..n]) <= targets.Keys
      invariant v.db == before.(rows := Retargeted(v.bundle, targets, before.rows, Members(ids[..n])))
    {
      assert ids[n] in Members(ids);
      assert Members(ids[..n + 1]) == Members(ids[..n]) + {ids[n]};
      TransitionRow(v, before, targets, ids[n], interactiveKey, Members(ids[..n]));
    }
    assert ids[..|ids|] == ids;
  }

  /** Everything a transition writes, once the keys are at hand. */
  method Move(v: OpenVault, targets: Targets, ids: seq<Identity>, key: Option<Key>) returns (moved: Moved)
    requires v.Valid() && targets.Keys == v.db.rows.Keys
    requires Distinct(ids) && Members(ids) == Transitions(targets, v.db.rows)
    requires |ids| == |Transitions(targets, v.db.rows)|
    requires ids != [] ==> key.Some? && key == InteractiveKeyOf(v.bundle)
    modifies v`db
    ensures (Transitions(targets, old(v.db.rows)) == {} || v.bundle.interactive.Some?) &&
            v.db == TransitionedDatabase(v.bundle, targets, old(v.db))
    ensures TransitionCounts(moved, targets, old(v.db.rows), v.db.rows)
  {
    var before := v.db;
    if ids == [] {
      assert Transitions(targets, before.rows) == {} && Retargeted(v.bundle, targets, before.rows, {}) == before.rows;
    } else {
      RetargetRows(v, targets, ids, key.value);
    }
    v.db := v.db.(residue := v.db.residue + Residue(targets, before.rows));
    var tightened := Tightened(targets, before.rows);
    if |tightened| > 0 { v.db := v.db.(sanitization := Some(v.bundle.generation)); }
    moved := Moved(|ids|, |tightened|, |OfClass(v.db.rows, Machine)|);
  }

  /** Row by row: a record is in interactive custody exactly when the evaluator locks it. What left machine custody is
      residue, and raises the flag at this generation; without it flag and residue stay. */
  ghost predicate FollowsRules(rules: seq<Rule>, default: Default, before: Database, after: Database, generation: nat) {
    && before.rows.Keys == after.rows.Keys
    && (forall id :: id in after.rows ==>
          (after.rows[id].keyClass == Interactive <==>
             Locked(rules, Query(id.project, id.environment, Some(id.name)), default)))
    && (forall sealed :: sealed in after.residue <==>
          || sealed in before.residue
          || exists id :: id in before.rows && before.rows[id].sealed == sealed &&
                          before.rows[id].keyClass == Machine && after.rows[id].keyClass == Interactive)
    && after.sanitization ==
         if exists id :: id in before.rows && before.rows[id].keyClass == Machine &&
                         after.rows[id].keyClass == Interactive
         then Some(generation) else before.sanitization
  }

  lemma TransitionedFollows(bundle: Bundle, rules: seq<Rule>, default: Default, targets: Targets, db: Database)
    requires targets == TargetsOf(rules, default, db.rows)
    requires Sound(bundle, db) && (Transitions(targets, db.rows) == {} || bundle.interactive.Some?)
    ensures var after := TransitionedDatabase(bundle, targets, db);
            && Sound(bundle, after) && View(after.rows) == View(db.rows) && Classes(after.rows) == targets
            && FollowsRules(rules, default, db, after, bundle.generation)
  {
    var after := TransitionedDatabase(bundle, targets, db);
    TransitionedIsSound(bundle, targets, db);
    assert after.rows.Keys == Classes(after.rows).Keys;
    forall id | id in db.rows
      ensures after.rows[id].keyClass == targets[id]
      ensures id in Tightened(targets, db.rows) <==>
                db.rows[id].keyClass == Machine && after.rows[id].keyClass == Interactive
    {
      assert Classes(after.rows)[id] == targets[id];
    }
    forall sealed
      ensures sealed in Residue(targets, db.rows) <==>
                exists id :: id in Tightened(targets, db.rows) && db.rows[id].sealed == sealed
    {
    }
  }

  lemma TightenedMoves(targets: Targets, rows: Rows)
    ensures Tightened(targets, rows) != {} ==> Transitions(targets, rows) != {}
  {
    if id :| id in Tightened(targets, rows) { assert id in Transitions(targets, rows); }
  }

  /** The rows that move, and the key they need. */
  method Approve(v: OpenVault, targets: Targets) returns (approved: bool, ids: seq<Identity>, key: Option<Key>)
    requires v.Valid()
    ensures Distinct(ids) && Members(ids) == Transitions(targets, v.db.rows)
    ensures |ids| == |Transitions(targets, v.db.rows)|
    ensures approved <==> Transitions(targets, v.db.rows) == {} || v.Unlocked()
    ensures approved && ids != [] ==> key.Some? && key == InteractiveKeyOf(v.bundle)
    ensures approved ==> Transitions(targets, v.db.rows) == {} || v.bundle.interactive.Some?
  {
    ids := Select(Transitions(targets, v.db.rows));
    assert ids != [] ==> ids[0] in Members(ids);
    TightenedMoves(targets, v.db.rows);
    if Tightened(targets, v.db.rows) != {} && v.bundle.interactive.None? { return false, ids, None; }
    if ids == [] { return true, ids, None; }
    key := v.KeyForClass(Interactive);
    return key.Some?, ids, key;
  }

  /** The whole custody transition. It needs the interactive key exactly when some row moves. */
  method TransitionRecordCustody(v: OpenVault, rules: seq<Rule>, default: Default) returns (result: Result<Moved>)
    requires v.Valid()
    modifies v`db
    ensures v.Valid()
    ensures var targets := TargetsOf(rules, default, old(v.db.rows));
            && (result.Ok? <==> Transitions(targets, old(v.db.rows)) == {} || old(v.Unlocked()))
            && (result.Refused? ==> v.db == old(v.db))
            && (result.Ok? ==>
                  && (Transitions(targets, old(v.db.rows)) == {} || v.bundle.interactive.Some?)
                  && v.db == TransitionedDatabase(v.bundle, targets, old(v.db))
                  && View(v.db.rows) == View(old(v.db.rows)) && Classes(v.db.rows) == targets
                  && TransitionCounts(result.value, targets, old(v.db.rows), v.db.rows))
    ensures result.Ok? ==> FollowsRules(rules, default, old(v.db), v.db, v.bundle.generation)
  {
    var targets := EvaluateTargets(rules, default, v.db.rows);
    var approved, ids, key := Approve(v, targets);
    if !approved { return Refused; }
    ghost var before := v.db;
    var moved := Move(v, targets, ids, key);
    TransitionedFollows(v.bundle, rules, default, targets, before);
    return Ok(moved);
  }

  function MovingTo(targets: Targets, rows: Rows, source: KeyClass, target: KeyClass): set<Identity> {
    set id | id in rows && id in targets && rows[id].keyClass == source && targets[id] == target
  }

  lemma MovingIsMovingTo(rules: seq<Rule>, default: Default, rows: Rows, source: KeyClass, target: KeyClass)
    ensures Moving(rules, default, Classes(rows), source, target) ==
              MovingTo(TargetsOf(rules, default, rows), rows, source, target)
  {
  }

  lemma SizeOfUnion(left: set<Identity>, right: set<Identity>, both: set<Identity>)
    requires left !! right && both == left + right
    ensures |both| == |left| + |right|
  {
  }

  lemma TransitionsSplit(targets: Targets, rows: Rows, after: Rows)
    requires targets.Keys == rows.Keys && Classes(after) == targets
    ensures Tightened(targets, rows) == MovingTo(targets, rows, Machine, Interactive)
    ensures Transitions(targets, rows) ==
              MovingTo(targets, rows, Machine, Interactive) + MovingTo(targets, rows, Interactive, Machine)
    ensures OfClass(after, Machine) ==
              MovingTo(targets, rows, Machine, Machine) + MovingTo(targets, rows, Interactive, Machine)
  {
    assert after.Keys == Classes(after).Keys;
    forall id | id in rows ensures after[id].keyClass == targets[id] {
      assert Classes(after)[id] == targets[id];
    }
  }

  /** The counts a transition reports are the ones the preview of a default counted before it. */
  lemma CountsMatchPreview(rules: seq<Rule>, default: Default, rows: Rows, after: Rows, moved: Moved, preview: Preview)
    requires TransitionCounts(moved, TargetsOf(rules, default, rows), rows, after)
    requires Counts(preview, rules, default, Classes(rows))
    requires Classes(after) == TargetsOf(rules, default, rows)
    ensures moved.tightened == preview.machineToInteractive
    ensures moved.changed == preview.machineToInteractive + preview.interactiveToMachine
    ensures moved.machineRemaining == preview.unchangedMachine + preview.interactiveToMachine
  {
    var targets := TargetsOf(rules, default, rows);
    TransitionsSplit(targets, rows, after);
    MovingIsMovingTo(rules, default, rows, Machine, Interactive);
    MovingIsMovingTo(rules, default, rows, Interactive, Machine);
    MovingIsMovingTo(rules, default, rows, Machine, Machine);
    var toMachine := MovingTo(targets, rows, Interactive, Machine);
    SizeOfUnion(MovingTo(targets, rows, Machine, Interactive), toMachine, Transitions(targets, rows));
    SizeOfUnion(MovingTo(targets, rows, Machine, Machine), toMachine, OfClass(after, Machine));
  }
}
