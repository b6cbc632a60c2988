/**
 Whole runs of the command line in which every process may be cut: set, delete, bulk deletion, rename, lock, unlock,
 inherit, new defaults, enrolment and new passphrases in any order, each followed by the recoveries and cleanups it
 calls for.

 Recovery at a start finishes the policy before it cleans up custody, so a policy command is one commit across its
 cuts, and then, if that commit tightened anything, one cleanup across its own.
*/
module CrashRuns {
  import opened Options
  import opened Records
  import opened Crashes
  import opened PolicyRules
  import opened VaultState
  import opened Vault
  import opened CustodyTransition
  import opened Custody
  import opened Sanitization
  import opened Coherence
  import P = PolicyCommit
  import R = Refinement

  /** The vault and its policy; `seed` is the default that holds until there is a policy document. */
  datatype World = World(vault: R.Stores, policy: P.Stores, seed: Default)
  {
    function Rules(): seq<Rule> { P.RulesOf(policy) }

    function CurrentDefault(): Default { P.DefaultOf(policy, seed) }

    function Records(): R.Plain { R.PlainOf(vault) }
  }

  /** Nothing is pending, the policy is one whole quadruple, and every listed record is in the class its rules ask
      for. */
  ghost predicate Steady(w: World) {
    && R.Settled(w.vault) && P.Settled(w.policy) && w.policy.classes == Classes(w.vault.db.rows)
    && ListedCoherent(w.Rules(), w.CurrentDefault(), w.vault.db.rows)
  }

  /** How the processes of one command are cut: the command, its recoveries, and the attempts at its cleanup. */
  datatype Crash = Crash(cut: Cut, cuts: seq<Cut>, attempts: seq<Attempt>)

  datatype Command =
    | Set(id: Identity, value: string, freshId: nat, crash: Crash)
    | Delete(id: Identity, crash: Crash)
    | DeleteBulk(project: Option<string>, environment: Option<string>, expected: set<Identity>, crash: Crash)
    | Rename(form: Form, crash: Crash)
    | ChangeRule(selector: Selector, action: Action, freshKey: nat, crash: Crash)
    | ChangeDefault(lock: bool, freshKey: nat, crash: Crash)
    | Enroll(newPassphrase: string, salt: nat, crash: Crash)
    | RotatePassphrase(newPassphrase: string, salt: nat, crash: Crash)
  {
    predicate OnPolicy() { ChangeRule? || ChangeDefault? }

    /** What the command is for the records, under the rules that hold behind it. */
    function OnRecords(rules: seq<Rule>, default: Default): R.Command {
      match this
      case Set(id, value, freshId, _) => R.Set(id, value, Target(rules, default, id), freshId, crash.cut)
      case Delete(id, _) => R.Delete(id, crash.cut)
      case DeleteBulk(project, environment, expected, _) => R.DeleteBulk(project, environment, expected, crash.cut)
      case Rename(form, _) => R.Rename(form, crash.cut)
      case ChangeRule(_, _, _, _) => R.MoveCustody(rules, default, crash.cut, crash.attempts)
      case ChangeDefault(_, _, _) => R.MoveCustody(rules, default, crash.cut, crash.attempts)
      case Enroll(newPassphrase, salt, _) => R.Enroll(newPassphrase, salt, crash.cut, crash.cuts)
      case RotatePassphrase(newPassphrase, salt, _) => R.RotatePassphrase(newPassphrase, salt, crash.cut, crash.cuts)
    }

    /** The first process reaches the step that commits the command. */
    predicate Commits() {
      crash.cut.Reaches(if OnPolicy() then P.POLICY_COMMIT
                        else if Enroll? || RotatePassphrase? then TRANSITION_COMMIT else R.ROW_COMMIT)
    }
  }

  /** The rules and the default that a command asks for. */
  ghost predicate Asked(command: Command, before: World, rules: seq<Rule>, default: Default) {
    match command
    case ChangeRule(selector, action, _, _) =>
      && Unique(rules) && AsMap(rules) == Mutated(AsMap(before.Rules()), selector, action)
      && default == before.CurrentDefault()
    case ChangeDefault(lock, _, _) => rules == before.Rules() && default == NextDefault(lock)
    case _ => rules == before.Rules() && default == before.CurrentDefault()
  }

  /** The policy is already what the command asks for. */
  ghost predicate Idle(command: Command, before: World) {
    match command
    case ChangeRule(selector, action, _, _) =>
      Mutated(AsMap(before.Rules()), selector, action) == AsMap(before.Rules())
    case ChangeDefault(lock, _, _) => P.StoredDefault(before.policy) == Some(NextDefault(lock))
    case _ => false
  }

  /** A rename must leave the authorization of every listed record as it is. */
  ghost predicate Authorized(command: Command, w: World) {
    command.Rename? ==>
      PreservesAuthorization(w.Rules(), w.CurrentDefault(), command.form,
                             ListedSelected(command.form, w.vault.db.rows))
  }

  /** The commands that unlock the vault before they look at anything: every rule change, a locking default, and a
      rename in a vault with interactive records, whether or not it touches one. */
  predicate NeedsUnlock(command: Command, w: World) {
    match command
    case ChangeRule(_, _, _, _) => true
    case ChangeDefault(lock, _, _) => lock
    case Rename(_, _) => OfClass(w.vault.db.rows, Interactive) != {}
    case _ => false
  }

  /** What the command line refuses itself: a missing passphrase, an empty value, an empty scope. */
  predicate Entered(command: Command, passphrase: string, w: World) {
    && (NeedsUnlock(command, w) ==> w.Records().Opens(passphrase))
    && (command.Set? ==> command.value != "") && (command.DeleteBulk? ==> command.expected != {})
  }

  /** With these rules behind it, the command is carried out. */
  ghost predicate Accepts(command: Command, passphrase: string, before: World, rules: seq<Rule>, default: Default) {
    && Entered(command, passphrase, before)
    && Asked(command, before, rules, default) && !Idle(command, before) && Authorized(command, before)
    && R.Accepts(command.OnRecords(rules, default), passphrase, before.Records())
  }

  /** One command: wholly carried out, on the rules and on the records, or nothing. It is carried out exactly when the
      rules it asks for, in whatever order they are written, allow it, and it is not cut before its commit. */
  ghost predicate Step(command: Command, passphrase: string, done: bool, before: World, after: World) {
    && (!done ==> after == before)
    && (forall rules, default :: Asked(command, before, rules, default) ==>
          (done <==> Accepts(command, passphrase, before, rules, default) && command.Commits()))
    && (done ==>
          && after.seed == before.seed
          && Asked(command, before, after.Rules(), after.CurrentDefault())
          && R.Effect(command.OnRecords(after.Rules(), after.CurrentDefault()), before.Records(), after.Records())
          && (command.OnPolicy() ==> Coherent(after.Rules(), after.CurrentDefault(), Classes(after.vault.db.rows)))
          && (!command.OnPolicy() ==> after.policy == before.policy.(classes := after.policy.classes)))
  }

  /** The order in which the asked rules are written decides nothing. */
  lemma AskedDecideAlike(command: Command, passphrase: string, before: World, rules: seq<Rule>, default: Default,
                         others: seq<Rule>, otherDefault: Default)
    requires Asked(command, before, rules, default) && Asked(command, before, others, otherDefault)
    ensures Accepts(command, passphrase, before, rules, default) <==>
              Accepts(command, passphrase, before, others, otherDefault)
  {
    if command.ChangeRule? {
      forall id ensures Target(rules, default, id) == Target(others, otherDefault, id) {
        EqualMapsDecideAlike(rules, others, QueryOf(id), default);
      }
      var records := before.Records().records;
      assert R.Reclassified(rules, default, records) == R.Reclassified(others, otherDefault, records);
    }
  }

  // ---- what each command needs, in plain terms --------------------------------------------------------------------

  /** Set, deletions and the commands on the passphrase. */
  lemma RecordCommandsAccepted(command: Command, passphrase: string, w: World)
    requires !command.OnPolicy() && !command.Rename?
    ensures var rules, default, records := w.Rules(), w.CurrentDefault(), w.Records().records;
            var opens := w.Records().passphrase == Some(passphrase) && passphrase != "";
            Accepts(command, passphrase, w, rules, default) <==>
              match command
              case Set(id, value, freshId, _) =>
                && ValidScopeName(id.project) && ValidScopeName(id.environment) && value != ""
                && (Locked(rules, Query(id.project, id.environment, Some(id.name)), default) ==> opens)
                && (id in records || forall other :: other in records ==> records[other].recordId != freshId)
              case Delete(id, _) => id in records
              case DeleteBulk(project, environment, expected, _) =>
                && (project != None || environment != None) && expected != {}
                && (project != None ==> ValidScopeName(project.value))
                && (environment != None ==> ValidScopeName(environment.value))
                && forall id :: id in expected <==>
                     && id in records && (project != None ==> project.value == id.project)
                     && (environment != None ==> environment.value == id.environment)
              case Enroll(newPassphrase, _, _) => w.Records().passphrase == None && newPassphrase != ""
              case RotatePassphrase(newPassphrase, _, _) => opens && newPassphrase != ""
              case _ => true
  {
    if command.DeleteBulk? {
      var project, environment, records := command.project, command.environment, w.Records().records;
      forall id
        ensures id in R.Scope(project, environment, records) <==>
                  && id in records && (project != None ==> project.value == id.project)
                  && (environment != None ==> environment.value == id.environment)
      {
      }
    }
  }

  /** A rename: valid names, the passphrase where anything is in interactive custody, free destinations, and the same
      decision behind it for every selected record that is not hidden. */
  lemma RenamesAccepted(command: Command, passphrase: string, w: World)
    requires command.Rename?
    ensures var rules, default, records := w.Rules(), w.CurrentDefault(), w.Records().records;
            Accepts(command, passphrase, w, rules, default) <==>
              && ValidForm(command.form)
              && ((exists id :: id in records && records[id].keyClass == Interactive) ==>
                    w.Records().passphrase == Some(passphrase) && passphrase != "")
              && forall id :: id in records && Selects(command.form, id) ==>
                   var to := Destination(command.form, id);
                   && to !in records
                   && (Listed(id.name) ==>
                         Locked(rules, Query(id.project, id.environment, Some(id.name)), default) ==
                         Locked(rules, Query(to.project, to.environment, Some(to.name)), default))
  {
    var rows, records, form := w.vault.db.rows, w.Records().records, command.form;
    var rules, default := w.Rules(), w.CurrentDefault();
    forall id | id in records ensures id in rows && records[id].keyClass == rows[id].keyClass {
    }
    assert NeedsUnlock(command, w) <==> exists id :: id in records && records[id].keyClass == Interactive by {
      if id :| id in records && records[id].keyClass == Interactive { assert id in OfClass(rows, Interactive); }
    }
    assert Authorized(command, w) <==>
             forall id :: id in records && Selects(form, id) && Listed(id.name) ==>
               Target(rules, default, id) == Target(rules, default, Destination(form, id)) by {
      assert forall id :: id in ListedSelected(form, rows) <==> id in records && Selects(form, id) && Listed(id.name);
    }
    if Accepts(command, passphrase, w, rules, default) {
      forall id | id in records && Selects(form, id) ensures Destination(form, id) !in records {
      }
    }
  }

  /** Lock, unlock and inherit need the passphrase and something to change. A new default needs the passphrase when it
      locks or when it moves any record, and has to differ from the stored one. */
  lemma PolicyCommandsAccepted(command: Command, passphrase: string, w: World, rules: seq<Rule>, default: Default)
    requires command.OnPolicy() && Asked(command, w, rules, default) && Unique(w.Rules())
    ensures var records := w.Records().records;
            var opens := w.Records().passphrase == Some(passphrase) && passphrase != "";
            Accepts(command, passphrase, w, rules, default) <==>
              if command.ChangeRule? then
                && opens
                && (if command.action == Inherit
                    then exists rule :: rule in w.Rules() && rule.selector == command.selector
                    else Rule(command.selector, command.action == Lock) !in w.Rules())
              else
                && (command.lock ==> opens)
                && (w.policy.document == None ||
                    w.policy.document.value.default != if command.lock then InteractiveDefault else MachineDefault)
                && (opens || forall id :: id in records ==>
                      (records[id].keyClass == Interactive <==>
                         Locked(rules, Query(id.project, id.environment, Some(id.name)), default)))
  {
    var records := w.Records().records;
    if command.ChangeRule? {
      MutationIsIdle(w.Rules(), command.selector, command.action);
    } else {
      UnmovedIff(rules, default, records);
    }
  }

  /** A mutation of the map changes nothing where its rule is there already, or there is none to remove. */
  lemma MutationIsIdle(rules: seq<Rule>, selector: Selector, action: Action)
    requires Unique(rules)
    ensures Mutated(AsMap(rules), selector, action) != AsMap(rules) <==>
              if action == Inherit then exists rule :: rule in rules && rule.selector == selector
              else Rule(selector, action == Lock) !in rules
  {
    var m := AsMap(rules);
    MapHasRules(rules);
    MapIsRules(rules, Rule(selector, action == Lock));
    assert selector in m ==> Rule(selector, m[selector]) in rules;
    assert selector !in m ==> m - {selector} == m;
    assert selector !in m ==> selector in m[selector := action == Lock];
    assert selector in m && m[selector] == (action == Lock) ==> m[selector := action == Lock] == m;
  }

  lemma UnmovedIff(rules: seq<Rule>, default: Default, records: map<Identity, Meaning>)
    ensures R.Reclassified(rules, default, records) == records <==>
              forall id :: id in records ==>
                (records[id].keyClass == Interactive <==>
                   Locked(rules, Query(id.project, id.environment, Some(id.name)), default))
  {
    var moved := R.Reclassified(rules, default, records);
    if moved == records {
      forall id | id in records
        ensures records[id].keyClass == Interactive <==> Locked(rules, QueryOf(id), default)
      {
        assert moved[id] == records[id];
      }
    }
  }

  lemma EqualMapsDecideAlike(rules: seq<Rule>, others: seq<Rule>, q: Query, default: Default)
    requires Unique(rules) && Unique(others) && AsMap(rules) == AsMap(others)
    ensures Locked(rules, q, default) == Locked(others, q, default)
  {
    for level := 1 to 4
      invariant forall l :: 1 <= l < level ==>
                  MatchedAt(rules, q, l) == MatchedAt(others, q, l) && LockedAt(rules, q, l) == LockedAt(others, q, l)
    {
      DecidedByMap(rules, q, level);
      DecidedByMap(others, q, level);
    }
  }

  /** A command on records that follows the rules, and moves nothing to another authorization, keeps listed records
      coherent. */
  lemma EffectKeepsCoherent(rules: seq<Rule>, default: Default, command: R.Command, before: Rows, after: Rows,
                            plain: R.Plain, next: R.Plain)
    requires ListedCoherent(rules, default, before) && plain.records == Meanings(before)
    requires next.records == Meanings(after) && R.Effect(command, plain, next) && !command.MoveCustody?
    requires command.Set? ==> command.keyClass == Target(rules, default, command.id)
    requires command.Rename? ==>
               PreservesAuthorization(rules, default, command.form, ListedSelected(command.form, before))
    ensures ListedCoherent(rules, default, after)
  {
    match command {
      case Set(id, _, _, _, _) => StoredKeepsCoherent(rules, default, before, after, id, Meanings(after)[id]);
      case Delete(id, _) => RemovedKeepsCoherent(rules, default, before, after, {id});
      case DeleteBulk(_, _, expected, _) => RemovedKeepsCoherent(rules, default, before, after, expected);
      case Rename(form, _) =>
        assert Selected(form, before) == SelectedIn(form, Meanings(before));
        RenameKeepsListedCoherent(rules, default, form, before, after);
      case _ => RemovedKeepsCoherent(rules, default, before, after, {});
    }
  }

  /** What the command line checks before it opens the vault. */
  method Check(w: World, command: Command, passphrase: string) returns (permitted: bool)
    ensures permitted <==> Entered(command, passphrase, w) && Authorized(command, w)
  {
    permitted := Entered(command, passphrase, w);
    if permitted && command.Rename? {
      permitted := CheckAuthorization(w.Rules(), w.CurrentDefault(), command.form, w.vault.db.rows);
    }
  }

  /** A step of a command that leaves the policy alone. */
  ghost predicate VaultStep(command: Command, passphrase: string, done: bool, before: World, after: World) {
    var onRecords := command.OnRecords(before.Rules(), before.CurrentDefault());
    && after == World(after.vault, before.policy.(classes := after.policy.classes), before.seed)
    && (!done ==> after == before)
    && if Entered(command, passphrase, before) && Authorized(command, before)
       then R.Simulates(onRecords, passphrase, done, before.Records(), after.Records())
       else !done
  }

  lemma VaultStepIsStep(command: Command, passphrase: string, done: bool, before: World, after: World)
    requires !command.OnPolicy() && VaultStep(command, passphrase, done, before, after)
    ensures Step(command, passphrase, done, before, after)
  {
  }

  /** Set, deletions, rename, and the commands on the key bundle. */
  method ExecuteOnVault(w: World, command: Command, passphrase: string) returns (next: World, done: bool)
    requires Steady(w) && !command.OnPolicy()
    ensures Steady(next) && VaultStep(command, passphrase, done, w, next)
  {
    var permitted := Check(w, command, passphrase);
    if !permitted { return w, false; }
    var vault;
    var onRecords := command.OnRecords(w.Rules(), w.CurrentDefault());
    vault, done := R.Execute(w.vault, onRecords, passphrase);
    if !done { return w, false; }
    EffectKeepsCoherent(w.Rules(), w.CurrentDefault(), onRecords, w.vault.db.rows, vault.db.rows,
                        w.Records(), R.PlainOf(vault));
    next := World(vault, w.policy.(classes := Classes(vault.db.rows)), w.seed);
  }

  /** The policy commit, with the transition of the rows in its transaction, and then the cleanup. */
  method ChangePolicy(w: World, rules: seq<Rule>, default: Default, freshKey: nat, crash: Crash, passphrase: string)
    returns (next: World, done: bool)
    requires Steady(w) && Unique(rules)
    ensures Steady(next) && (!done ==> next == w)
    ensures var moving := R.MoveCustody(rules, default, crash.cut, crash.attempts);
            && (done <==> R.Accepts(moving, passphrase, w.Records()) && crash.cut.Reaches(P.POLICY_COMMIT))
            && (done ==> R.Effect(moving, w.Records(), next.Records()))
    ensures done ==>
              && next.Rules() == rules && next.CurrentDefault() == default && next.seed == w.seed
              && Coherent(rules, default, Classes(next.vault.db.rows))
  {
    var moved := R.TransitionRows(w.vault, rules, default, passphrase);
    var mutation := if moved.Some? then P.TransitionCustody else P.RefusedTransition;
    var fuse := new Fuse(crash.cut);
    var p := new P.PolicyProcess(w.policy, fuse);
    ghost var document := P.NextDocument(w.policy.document, default, rules, freshKey);
    ghost var after := P.Committed(w.policy, document, mutation);
    P.CommitAcrossCrashes(p, w.policy.document, default, rules, freshKey, mutation, crash.cuts, w.policy, after);
    if moved.None? || p.stores == w.policy { return w, false; }
    var targets := TargetsOf(rules, default, w.vault.db.rows);
    var vault := R.FinishTransition(w.vault, moved.value, targets, crash.attempts, passphrase);
    TargetsAreCoherent(rules, default, w.vault.db.rows, vault.db.rows);
    return World(vault, p.stores, w.seed), true;
  }

  /** A carried out change of the default, on the records: what no rule matches is in the class of the default, and no
      record that followed its rules moves the other way. */
  ghost predicate FollowsDefault(lock: bool, before: World, after: World) {
    var was, now := before.Records().records, after.Records().records;
    var class_ := if lock then Interactive else Machine;
    && was.Keys == now.Keys
    && (forall id :: id in now && !Ruled(after.Rules(), id) ==>
          && now[id].keyClass == class_
          && (Locked(after.Rules(), Query(id.project, id.environment, Some(id.name)), after.CurrentDefault()) <==>
                lock))
    && (forall id :: id in now && Listed(id.name) && now[id].keyClass != was[id].keyClass ==>
          now[id].keyClass == class_)
  }

  lemma DefaultIsFollowed(lock: bool, before: World, after: World)
    requires ListedCoherent(before.Rules(), before.CurrentDefault(), before.vault.db.rows)
    requires after.Rules() == before.Rules() && after.CurrentDefault() == NextDefault(lock)
    requires after.Records().records == R.Reclassified(before.Rules(), NextDefault(lock), before.Records().records)
    ensures FollowsDefault(lock, before, after)
  {
    var rules, default := before.Rules(), before.CurrentDefault();
    var was, now := before.Records().records, after.Records().records;
    forall id | id in now
      ensures now[id].keyClass == Target(rules, NextDefault(lock), id)
      ensures Listed(id.name) ==> was[id].keyClass == Target(rules, default, id)
      ensures !Ruled(rules, id) ==> (Locked(rules, QueryOf(id), NextDefault(lock)) <==> lock)
      ensures Ruled(rules, id) ==> Target(rules, NextDefault(lock), id) == Target(rules, default, id)
    {
      DefaultDecides(rules, QueryOf(id), lock, default);
    }
  }

  method ExecuteOnPolicy(w: World, command: Command, passphrase: string) returns (next: World, done: bool)
    requires Steady(w) && command.OnPolicy()
    ensures Steady(next) && Step(command, passphrase, done, w, next)
    ensures done && command.ChangeDefault? ==> FollowsDefault(command.lock, w, next)
  {
    var rules, default, commit;
    if !Entered(command, passphrase, w) { return w, false; }
    if command.ChangeRule? {
      rules, commit := MutateRule(w.Rules(), command.selector, command.action);
      default := w.CurrentDefault();
    } else {
      rules, default := w.Rules(), NextDefault(command.lock);
      commit := w.policy.document.None? || w.policy.document.value.default != default;
    }
    forall others, otherDefault | Asked(command, w, others, otherDefault)
      ensures Accepts(command, passphrase, w, others, otherDefault) <==>
                Accepts(command, passphrase, w, rules, default)
    {
      AskedDecideAlike(command, passphrase, w, rules, default, others, otherDefault);
    }
    if !commit { return w, false; }
    next, done := ChangePolicy(w, rules, default, command.freshKey, command.crash, passphrase);
    if done && command.ChangeDefault? { DefaultIsFollowed(command.lock, w, next); }
  }

  /** A run of steps. */
  ghost predicate Steps(commands: seq<Command>, passphrases: seq<string>, outcomes: seq<bool>, run: seq<World>) {
    && |outcomes| == |commands| == |passphrases| && |run| == |commands| + 1
    && forall n :: 0 <= n < |commands| ==> Step(commands[n], passphrases[n], outcomes[n], run[n], run[n + 1])
  }

  /** However its processes are cut, a run is a sequence of whole steps on rules and records, nothing is pending at
      its end, and every record is then in interactive custody exactly when the evaluator locks it, unless its name is
      hidden: one that begins with two underscores or one of the five removed ones. */
  method RunAcrossCrashes(w: World, commands: seq<Command>, passphrases: seq<string>)
    returns (last: World, outcomes: seq<bool>, ghost run: seq<World>)
    requires Steady(w) && |passphrases| == |commands|
    ensures Steps(commands, passphrases, outcomes, run) && run[0] == w && run[|commands|] == last && Steady(last)
    ensures forall id ::
              && id in last.vault.db.rows && !(|id.name| >= 2 && id.name[0] == '_' && id.name[1] == '_')
              && id.name !in {"_keyclasp_sso:config", "_keyclasp_sso:token", "_keyclasp_deadman:config",
                              "_keyclasp_deadman:last_checkin", "__keyclasp_team_check"} ==>
                (last.vault.db.rows[id].keyClass == Interactive <==>
                   Locked(last.Rules(), Query(id.project, id.environment, Some(id.name)), last.CurrentDefault()))
  {
    last, outcomes, run := w, [], [w];
    for n := 0 to |commands|
      invariant Steady(last) && Steps(commands[..n], passphrases[..n], outcomes, run)
      invariant run[0] == w && run[n] == last
    {
      var done;
      if commands[n].OnPolicy() {
        last, done := ExecuteOnPolicy(last, commands[n], passphrases[n]);
      } else {
        ghost var before := last;
        last, done := ExecuteOnVault(last, commands[n], passphrases[n]);
        VaultStepIsStep(commands[n], passphrases[n], done, before, last);
      }
      outcomes, run := outcomes + [done], run + [last];
    }
    assert commands[..|commands|] == commands && passphrases[..|commands|] == passphrases;
    forall id | id in last.vault.db.rows { ListedNames(id.name); }
  }
}
