/**
 Authorization rules: who decides whether a record is locked, and what a change of rules or of the default changes.
*/
module PolicyRules {
  import opened Options
  import opened Records

  datatype Selector = Selector(project: Option<string>, environment: Option<string>, secret: Option<string>)

  datatype Rule = Rule(selector: Selector, locked: bool)

  datatype Query = Query(project: string, environment: string, secret: Option<string>)

  datatype Default = InteractiveDefault | MachineDefault | LegacyMachineDefault

  datatype Action = Lock | Unlock | Inherit

  predicate Agrees(part: Option<string>, actual: Option<string>) {
    part.None? || part == actual
  }

  predicate Matches(selector: Selector, q: Query) {
    && Agrees(selector.project, Some(q.project)) && Agrees(selector.environment, Some(q.environment))
    && Agrees(selector.secret, q.secret)
  }

  function Level(selector: Selector): (level: nat)
    ensures 1 <= level <= 3
  {
    if selector.secret.Some? then 3 else if selector.project.Some? && selector.environment.Some? then 2 else 1
  }

  function MatchingSpecificity(rule: Rule, q: Query): Option<nat> {
    if !Agrees(rule.selector.project, Some(q.project)) then None
    else if !Agrees(rule.selector.environment, Some(q.environment)) then None
    else if !Agrees(rule.selector.secret, q.secret) then None
    else if rule.selector.secret.Some? then Some(3)
    else if rule.selector.project.Some? && rule.selector.environment.Some? then Some(2)
    else Some(1)
  }

  // ---- the decision, stated without an order ----------------------------------------------------------------------

  predicate MatchedAt(rules: seq<Rule>, q: Query, level: nat) {
    exists rule :: rule in rules && Matches(rule.selector, q) && Level(rule.selector) == level
  }

  predicate LockedAt(rules: seq<Rule>, q: Query, level: nat) {
    exists rule :: rule in rules && Matches(rule.selector, q) && Level(rule.selector) == level && rule.locked
  }

  /** The most specific matching level decides, at a level a lock wins, and without a match the default does. */
  predicate Locked(rules: seq<Rule>, q: Query, default: Default) {
    if MatchedAt(rules, q, 3) then LockedAt(rules, q, 3)
    else if MatchedAt(rules, q, 2) then LockedAt(rules, q, 2)
    else if MatchedAt(rules, q, 1) then LockedAt(rules, q, 1)
    else default.InteractiveDefault?
  }

  /** The scan over the first `n` rules: the best level seen so far, and whether it locks. */
  ghost predicate Scanned(rules: seq<Rule>, n: nat, q: Query, default: Default, best: nat, locked: bool)
    requires n <= |rules|
  {
    && best <= 3
    && (forall rule :: rule in rules[..n] && Matches(rule.selector, q) ==> Level(rule.selector) <= best)
    && (if best == 0 then locked == default.InteractiveDefault?
        else MatchedAt(rules[..n], q, best) && locked == LockedAt(rules[..n], q, best))
  }

  lemma ScannedIsLocked(rules: seq<Rule>, q: Query, default: Default, best: nat, locked: bool)
    requires Scanned(rules, |rules|, q, default, best, locked)
    ensures locked == Locked(rules, q, default)
  {
    assert rules[..|rules|] == rules;
  }

  lemma ScanStep(rules: seq<Rule>, n: nat, q: Query, default: Default, best: nat, locked: bool)
    requires n < |rules| && Scanned(rules, n, q, default, best, locked)
    ensures var rule := rules[n]; var level := Level(rule.selector);
            if !Matches(rule.selector, q) || level < best then Scanned(rules, n + 1, q, default, best, locked)
            else if level > best then Scanned(rules, n + 1, q, default, level, rule.locked)
            else Scanned(rules, n + 1, q, default, best, locked || rule.locked)
  {
    assert rules[..n + 1] == rules[..n] + [rules[n]];
    assert rules[n] in rules[..n + 1];
    assert forall rule :: rule in rules[..n] ==> rule in rules[..n + 1];
  }

  /** The one-pass evaluator computes the decision, for any list of rules. */
  method EvaluateAuthorizationRules(rules: seq<Rule>, q: Query, default: Default) returns (locked: bool)
    ensures locked == Locked(rules, q, default)
  {
    var bestSpecificity: nat := 0;
    locked := default.InteractiveDefault?;
    for n := 0 to |rules|
      invariant Scanned(rules, n, q, default, bestSpecificity, locked)
    {
      ScanStep(rules, n, q, default, bestSpecificity, locked);
      var specificity := MatchingSpecificity(rules[n], q);
      if specificity.None? || specificity.value < bestSpecificity { continue; }
      if specificity.value > bestSpecificity {
        bestSpecificity, locked := specificity.value, rules[n].locked;
      } else if rules[n].locked {
        locked := true;
      }
    }
    ScannedIsLocked(rules, q, default, bestSpecificity, locked);
  }

  /** The decision in the parts that selectors fix: matching rules that name the secret decide alone; without one,
      those that name project and environment do; without one, those with a single part; then the default. */
  lemma DecidedByParts(rules: seq<Rule>, q: Query, default: Default, matching: set<Rule>, named: set<Rule>,
                       scoped: set<Rule>)
    requires matching == set rule | rule in rules && rule.selector.project in {None, Some(q.project)} &&
                                    rule.selector.environment in {None, Some(q.environment)} &&
                                    rule.selector.secret in {None, q.secret}
    requires named == set rule | rule in matching && rule.selector.secret != None
    requires scoped == set rule | rule in matching && None !in {rule.selector.project, rule.selector.environment}
    ensures Locked(rules, q, default) <==>
              if named != {} then exists rule :: rule in named && rule.locked
              else if scoped != {} then exists rule :: rule in scoped && rule.locked
              else if matching != {} then exists rule :: rule in matching && rule.locked
              else default == InteractiveDefault
  {
    assert forall rule :: rule in matching <==> rule in rules && Matches(rule.selector, q);
    assert forall rule :: rule in named <==> rule in matching && Level(rule.selector) == 3;
    assert named == {} ==> forall rule :: rule in scoped <==> rule in matching && Level(rule.selector) == 2;
  }

  /** How many parts a selector fixes. */
  function Parts(selector: Selector): nat {
    (if selector.project == None then 0 else 1) + (if selector.environment == None then 0 else 1)
    + if selector.secret == None then 0 else 1
  }

  /** The selectors that can be stored. */
  predicate WellFormed(selector: Selector) {
    && (selector.project != None || selector.environment != None)
    && (selector.secret != None ==> selector.project != None && selector.environment != None)
  }

  /** Among rules that can be stored, a matching rule overrides every matching rule that fixes fewer parts: the
      decision is a lock if and only if a locking rule matches that no other match exceeds. */
  lemma MorePartsOverride(rules: seq<Rule>, q: Query, default: Default)
    requires forall rule :: rule in rules ==> WellFormed(rule.selector)
    ensures var matching := set rule | rule in rules && Matches(rule.selector, q);
            Locked(rules, q, default) <==>
              if matching == {} then default == InteractiveDefault
              else exists rule :: rule in matching && rule.locked &&
                     forall other :: other in matching ==> Parts(other.selector) <= Parts(rule.selector)
  {
    var matching := set rule | rule in rules && Matches(rule.selector, q);
    assert forall rule :: rule in matching ==> Parts(rule.selector) == Level(rule.selector);
    if matching == {} {
      assert forall rule :: rule in rules && Matches(rule.selector, q) ==> rule in matching;
    } else {
      var level := if MatchedAt(rules, q, 3) then 3 else if MatchedAt(rules, q, 2) then 2 else 1;
      var top :| top in matching && Level(top.selector) == level;
      assert forall other :: other in matching ==> Parts(other.selector) <= level == Parts(top.selector);
      assert Locked(rules, q, default) == LockedAt(rules, q, level);
    }
  }

  /** Neither the order of the rules nor repetitions matter. */
  lemma OrderDoesNotMatter(rules: seq<Rule>, others: seq<Rule>, q: Query, default: Default)
    requires forall rule :: rule in rules <==> rule in others
    ensures Locked(rules, q, default) == Locked(others, q, default)
  {
    forall level: nat ensures MatchedAt(rules, q, level) == MatchedAt(others, q, level)
                      ensures LockedAt(rules, q, level) == LockedAt(others, q, level) {
    }
  }

  lemma PermutationsDecideAlike(rules: seq<Rule>, others: seq<Rule>, q: Query, default: Default)
    requires multiset(rules) == multiset(others)
    ensures Locked(rules, q, default) == Locked(others, q, default)
  {
    forall rule ensures rule in rules <==> rule in others {
      assert rule in rules <==> rule in multiset(rules);
      assert rule in others <==> rule in multiset(others);
    }
    OrderDoesNotMatter(rules, others, q, default);
  }

  // ---- changing one rule ------------------------------------------------------------------------------------------

  /** Every loaded policy has at most one rule for a selector. */
  predicate Unique(rules: seq<Rule>) {
    forall i, j :: 0 <= i < j < |rules| ==> rules[i].selector != rules[j].selector
  }

  /** The rules as a finite map from selectors. */
  function AsMap(rules: seq<Rule>): map<Selector, bool> {
    if rules == [] then map[] else AsMap(rules[..|rules| - 1])[rules[|rules| - 1].selector := rules[|rules| - 1].locked]
  }

  lemma {:induction false} MapHasRules(rules: seq<Rule>)
    ensures forall rule :: rule in rules ==> rule.selector in AsMap(rules)
    ensures forall s :: s in AsMap(rules) ==> Rule(s, AsMap(rules)[s]) in rules
  {
    if rules == [] {
    } else {
      MapHasRules(rules[..|rules| - 1]);
    }
  }

  /** With unique selectors, membership is the map. */
  lemma MapIsRules(rules: seq<Rule>, rule: Rule)
    requires Unique(rules)
    ensures rule in rules <==> rule.selector in AsMap(rules) && AsMap(rules)[rule.selector] == rule.locked
  {
    MapHasRules(rules);
    if rule in rules {
      var i :| 0 <= i < |rules| && rules[i] == rule;
      var other := Rule(rule.selector, AsMap(rules)[rule.selector]);
      var j :| 0 <= j < |rules| && rules[j] == other;
    }
  }

  /** What one mutation means for the map of rules. */
  function Mutated(m: map<Selector, bool>, selector: Selector, action: Action): map<Selector, bool> {
    match action
    case Lock => m[selector := true]
    case Unlock => m[selector := false]
    case Inherit => m - {selector}
  }

  lemma MapFromRules(rules: seq<Rule>, m: map<Selector, bool>)
    requires Unique(rules)
    requires forall rule :: rule in rules <==> rule.selector in m && m[rule.selector] == rule.locked
    ensures AsMap(rules) == m
  {
    MapHasRules(rules);
    forall s ensures s in AsMap(rules) <==> s in m {
      if s in m { assert Rule(s, m[s]) in rules; }
    }
  }

  method FindIndex(rules: seq<Rule>, selector: Selector) returns (index: int)
    ensures index == -1 ==> forall rule :: rule in rules ==> rule.selector != selector
    ensures index != -1 ==> 0 <= index < |rules| && rules[index].selector == selector
  {
    for n := 0 to |rules|
      invariant forall k :: 0 <= k < n ==> rules[k].selector != selector
    {
      if rules[n].selector == selector { return n; }
    }
    return -1;
  }

  lemma Spliced(rules: seq<Rule>, index: nat, insert: seq<Rule>)
    requires Unique(rules) && index < |rules| && |insert| <= 1
    requires forall rule :: rule in insert ==> rule.selector == rules[index].selector
    ensures var next := rules[..index] + insert + rules[index + 1..];
            && Unique(next)
            && forall rule :: rule in next <==>
                 rule in insert || (rule in rules && rule.selector != rules[index].selector)
  {
    var next := rules[..index] + insert + rules[index + 1..];
    forall rule ensures rule in next <==> rule in insert || (rule in rules && rule.selector != rules[index].selector) {
      if rule in rules && rule.selector != rules[index].selector {
        var k :| 0 <= k < |rules| && rules[k] == rule;
        assert rule in if k < index then rules[..index] else rules[index + 1..];
      }
    }
  }

  lemma Removed(rules: seq<Rule>, index: nat)
    requires Unique(rules) && index < |rules|
    ensures var next := rules[..index] + rules[index + 1..];
            var m := AsMap(rules); var selector := rules[index].selector;
            Unique(next) && selector in m && AsMap(next) == m - {selector}
  {
    var next, m, selector := rules[..index] + rules[index + 1..], AsMap(rules), rules[index].selector;
    Spliced(rules, index, []);
    assert next == rules[..index] + [] + rules[index + 1..];
    MapIsRules(rules, rules[index]);
    forall rule: Rule
      ensures rule in next <==> rule.selector in m - {selector} && (m - {selector})[rule.selector] == rule.locked
    {
      MapIsRules(rules, rule);
    }
    MapFromRules(next, m - {selector});
  }

  lemma Replaced(rules: seq<Rule>, index: nat, locked: bool)
    requires Unique(rules) && index < |rules|
    ensures var selector := rules[index].selector; var m := AsMap(rules);
            var next := rules[..index] + [Rule(selector, locked)] + rules[index + 1..];
            Unique(next) && selector in m && m[selector] == rules[index].locked && AsMap(next) == m[selector := locked]
  {
    var m, selector := AsMap(rules), rules[index].selector;
    var next := rules[..index] + [Rule(selector, locked)] + rules[index + 1..];
    Spliced(rules, index, [Rule(selector, locked)]);
    assert rules[index] in rules;
    MapIsRules(rules, rules[index]);
    forall rule: Rule
      ensures rule in next <==>
                rule.selector in m[selector := locked] && m[selector := locked][rule.selector] == rule.locked
    {
      MapIsRules(rules, rule);
    }
    MapFromRules(next, m[selector := locked]);
  }

  lemma Absent(rules: seq<Rule>, selector: Selector)
    requires forall rule :: rule in rules ==> rule.selector != selector
    ensures selector !in AsMap(rules)
  {
    MapHasRules(rules);
  }

  lemma Appended(rules: seq<Rule>, rule: Rule)
    requires Unique(rules) && forall other :: other in rules ==> other.selector != rule.selector
    ensures Unique(rules + [rule]) && AsMap(rules + [rule]) == AsMap(rules)[rule.selector := rule.locked]
    ensures rule.selector !in AsMap(rules)
  {
    Absent(rules, rule.selector);
    assert (rules + [rule])[..|rules|] == rules;
  }

  /** What a mutation does to the list: rules that stay keep their place. */
  ghost predicate RuleMutation(rules: seq<Rule>, selector: Selector, action: Action, next: seq<Rule>, commit: bool) {
    && Unique(next) && AsMap(next) == Mutated(AsMap(rules), selector, action)
    && (commit <==> AsMap(next) != AsMap(rules)) && (!commit ==> next == rules)
  }

  method InheritRule(rules: seq<Rule>, selector: Selector) returns (next: seq<Rule>, commit: bool)
    requires Unique(rules)
    ensures RuleMutation(rules, selector, Inherit, next, commit)
  {
    var index := FindIndex(rules, selector);
    if index == -1 {
      Absent(rules, selector);
      return rules, false;
    }
    Removed(rules, index);
    return rules[..index] + rules[index + 1..], true;
  }

  method SetRule(rules: seq<Rule>, selector: Selector, locked: bool) returns (next: seq<Rule>, commit: bool)
    requires Unique(rules)
    ensures RuleMutation(rules, selector, if locked then Lock else Unlock, next, commit)
  {
    var index := FindIndex(rules, selector);
    if index == -1 {
      Appended(rules, Rule(selector, locked));
      return rules + [Rule(selector, locked)], true;
    }
    Replaced(rules, index, locked);
    if rules[index].locked == locked { return rules, false; }
    return rules[..index] + [Rule(selector, locked)] + rules[index + 1..], true;
  }

  /** In terms of the list: the other rules stay, and the selector has the one rule that was asked for, or none. */
  lemma MutatedRules(rules: seq<Rule>, selector: Selector, action: Action, next: seq<Rule>)
    requires Unique(rules) && Unique(next) && AsMap(next) == Mutated(AsMap(rules), selector, action)
    ensures forall rule :: rule in next <==>
              if rule.selector != selector then rule in rules else action != Inherit && rule.locked == (action == Lock)
  {
    forall rule: Rule
      ensures rule in next <==>
                if rule.selector != selector then rule in rules
                else action != Inherit && rule.locked == (action == Lock)
    {
      MapIsRules(next, rule);
      MapIsRules(rules, rule);
    }
  }

  /** Lock and unlock update one selector, inherit removes it, and nothing is committed when nothing changes. */
  method MutateRule(rules: seq<Rule>, selector: Selector, action: Action) returns (next: seq<Rule>, commit: bool)
    requires Unique(rules)
    ensures RuleMutation(rules, selector, action, next, commit)
    ensures forall rule :: rule in next <==>
              if rule.selector != selector then rule in rules else action != Inherit && rule.locked == (action == Lock)
  {
    if action == Inherit {
      next, commit := InheritRule(rules, selector);
    } else {
      next, commit := SetRule(rules, selector, action == Lock);
    }
    MutatedRules(rules, selector, action, next);
  }

  // ---- what a changed map decides ---------------------------------------------------------------------------------

  ghost predicate MatchedIn(m: map<Selector, bool>, q: Query, level: nat) {
    exists s :: s in m && Matches(s, q) && Level(s) == level
  }

  ghost predicate LockedIn(m: map<Selector, bool>, q: Query, level: nat) {
    exists s :: s in m && Matches(s, q) && Level(s) == level && m[s]
  }

  lemma DecidedByMap(rules: seq<Rule>, q: Query, level: nat)
    requires Unique(rules)
    ensures MatchedAt(rules, q, level) <==> MatchedIn(AsMap(rules), q, level)
    ensures LockedAt(rules, q, level) <==> LockedIn(AsMap(rules), q, level)
  {
    MapHasRules(rules);
    forall rule: Rule | rule in rules
      ensures rule.selector in AsMap(rules) && AsMap(rules)[rule.selector] == rule.locked
    {
      MapIsRules(rules, rule);
    }
  }

  /** A mutation of a selector can change the decision only for what the selector matches and nothing more
      specific decides. */
  lemma MutationIsLocal(rules: seq<Rule>, next: seq<Rule>, selector: Selector, action: Action, q: Query,
                        default: Default)
    requires Unique(rules) && Unique(next) && AsMap(next) == Mutated(AsMap(rules), selector, action)
    requires !Matches(selector, q) || exists level: nat :: Level(selector) < level <= 3 && MatchedAt(rules, q, level)
    ensures Locked(next, q, default) == Locked(rules, q, default)
  {
    forall level: nat | level != Level(selector) || !Matches(selector, q)
      ensures MatchedAt(next, q, level) == MatchedAt(rules, q, level)
      ensures LockedAt(next, q, level) == LockedAt(rules, q, level)
    {
      OtherLevel(rules, next, selector, action, q, level);
    }
  }

  lemma OtherLevelInMap(m: map<Selector, bool>, selector: Selector, action: Action, q: Query, level: nat)
    requires level != Level(selector) || !Matches(selector, q)
    ensures MatchedIn(Mutated(m, selector, action), q, level) == MatchedIn(m, q, level)
    ensures LockedIn(Mutated(m, selector, action), q, level) == LockedIn(m, q, level)
  {
    var n := Mutated(m, selector, action);
    forall s: Selector | Matches(s, q) && Level(s) == level ensures (s in m <==> s in n) && (s in m ==> m[s] == n[s]) {
    }
  }

  lemma OtherLevel(rules: seq<Rule>, next: seq<Rule>, selector: Selector, action: Action, q: Query, level: nat)
    requires Unique(rules) && Unique(next) && AsMap(next) == Mutated(AsMap(rules), selector, action)
    requires level != Level(selector) || !Matches(selector, q)
    ensures MatchedAt(next, q, level) == MatchedAt(rules, q, level)
    ensures LockedAt(next, q, level) == LockedAt(rules, q, level)
  {
    DecidedByMap(rules, q, level);
    DecidedByMap(next, q, level);
    OtherLevelInMap(AsMap(rules), selector, action, q, level);
  }

  /** Where the mutated selector is the most specific match, a lock locks, and an unlock unlocks unless another
      rule of the same level locks. */
  lemma MutationTakesEffect(rules: seq<Rule>, next: seq<Rule>, selector: Selector, action: Action, q: Query,
                            default: Default)
    requires Unique(rules) && Unique(next)
    requires AsMap(next) == Mutated(AsMap(rules), selector, action) && action != Inherit
    requires Matches(selector, q) && forall level: nat :: Level(selector) < level <= 3 ==> !MatchedAt(rules, q, level)
    ensures Locked(next, q, default) <==>
              action == Lock || exists rule :: rule in rules && rule.selector != selector && rule.locked &&
                                               Matches(rule.selector, q) && Level(rule.selector) == Level(selector)
  {
    var level := Level(selector);
    forall higher: nat | level < higher <= 3 ensures !MatchedAt(next, q, higher) {
      OtherLevel(rules, next, selector, action, q, higher);
    }
    MutatedRules(rules, selector, action, next);
    assert Rule(selector, action == Lock) in next;
    assert MatchedAt(next, q, level);
  }

  /** After an inherit, every decision is the one of the other rules. */
  lemma InheritTakesEffect(rules: seq<Rule>, next: seq<Rule>, selector: Selector, others: seq<Rule>, q: Query,
                           default: Default)
    requires Unique(rules) && Unique(next) && AsMap(next) == Mutated(AsMap(rules), selector, Inherit)
    requires forall rule :: rule in others <==> rule in rules && rule.selector != selector
    ensures Locked(next, q, default) == Locked(others, q, default)
  {
    MutatedRules(rules, selector, Inherit, next);
    OrderDoesNotMatter(next, others, q, default);
  }

  // ---- the default, and its preview -------------------------------------------------------------------------------

  function QueryOf(id: Identity): Query { Query(id.project, id.environment, Some(id.name)) }

  function Target(rules: seq<Rule>, default: Default, id: Identity): KeyClass {
    if Locked(rules, QueryOf(id), default) then Interactive else Machine
  }

  /** Every record has the class its rules ask for. */
  ghost predicate Coherent(rules: seq<Rule>, default: Default, records: map<Identity, KeyClass>) {
    forall id :: id in records ==> records[id] == Target(rules, default, id)
  }

  function Moving(rules: seq<Rule>, default: Default, records: map<Identity, KeyClass>, source: KeyClass,
                  target: KeyClass): set<Identity> {
    set id | id in records && records[id] == source && Target(rules, default, id) == target
  }

  datatype Preview = Preview(machineToInteractive: nat, interactiveToMachine: nat,
                             unchangedMachine: nat, unchangedInteractive: nat)

  function NextDefault(lock: bool): Default { if lock then InteractiveDefault else MachineDefault }

  /** The new default decides for what no rule matches, and only there. */
  lemma DefaultDecides(rules: seq<Rule>, q: Query, lock: bool, other: Default)
    ensures (forall rule :: rule in rules ==> !Matches(rule.selector, q)) ==>
              (Locked(rules, q, NextDefault(lock)) <==> lock)
    ensures (exists rule :: rule in rules && Matches(rule.selector, q)) ==>
              Locked(rules, q, NextDefault(lock)) == Locked(rules, q, other)
  {
    if rule :| rule in rules && Matches(rule.selector, q) {
      assert MatchedAt(rules, q, Level(rule.selector));
    }
  }

  ghost predicate Counts(preview: Preview, rules: seq<Rule>, default: Default, records: map<Identity, KeyClass>) {
    && preview.machineToInteractive == |Moving(rules, default, records, Machine, Interactive)|
    && preview.interactiveToMachine == |Moving(rules, default, records, Interactive, Machine)|
    && preview.unchangedMachine == |Moving(rules, default, records, Machine, Machine)|
    && preview.unchangedInteractive == |Moving(rules, default, records, Interactive, Interactive)|
  }

  function Counted(preview: Preview, source: KeyClass, target: KeyClass): Preview {
    if source == Machine && target == Interactive then
      preview.(machineToInteractive := preview.machineToInteractive + 1)
    else if source == Interactive && target == Machine then
      preview.(interactiveToMachine := preview.interactiveToMachine + 1)
    else if source == Machine then preview.(unchangedMachine := preview.unchangedMachine + 1)
    else preview.(unchangedInteractive := preview.unchangedInteractive + 1)
  }

  lemma OneMoreMoves(rules: seq<Rule>, default: Default, records: map<Identity, KeyClass>, id: Identity,
                     class_: KeyClass, source: KeyClass, target: KeyClass)
    requires id !in records
    ensures |Moving(rules, default, records[id := class_], source, target)| ==
              |Moving(rules, default, records, source, target)|
              + if source == class_ && target == Target(rules, default, id) then 1 else 0
  {
    var before := Moving(rules, default, records, source, target);
    var after := Moving(rules, default, records[id := class_], source, target);
    MovingGrows(rules, default, records, id, class_, source, target);
    if source == class_ && target == Target(rules, default, id) {
      assert |before + {id}| == |before| + 1;
    }
  }

  lemma MovingGrows(rules: seq<Rule>, default: Default, records: map<Identity, KeyClass>, id: Identity,
                    class_: KeyClass, source: KeyClass, target: KeyClass)
    requires id !in records
    ensures id !in Moving(rules, default, records, source, target)
    ensures Moving(rules, default, records[id := class_], source, target) ==
              Moving(rules, default, records, source, target)
              + if source == class_ && target == Target(rules, default, id) then {id} else {}
  {
  }

  lemma CountOneMore(preview: Preview, rules: seq<Rule>, default: Default, records: map<Identity, KeyClass>,
                     id: Identity, class_: KeyClass)
    requires id !in records && Counts(preview, rules, default, records)
    ensures Counts(Counted(preview, class_, Target(rules, default, id)), rules, default, records[id := class_])
  {
    OneMoreMoves(rules, default, records, id, class_, Machine, Interactive);
    OneMoreMoves(rules, default, records, id, class_, Interactive, Machine);
    OneMoreMoves(rules, default, records, id, class_, Machine, Machine);
    OneMoreMoves(rules, default, records, id, class_, Interactive, Interactive);
  }

  /** Some rule matches the record. */
  ghost predicate Ruled(rules: seq<Rule>, id: Identity) {
    exists rule :: rule in rules && Matches(rule.selector, Query(id.project, id.environment, Some(id.name)))
  }

  /** A new default moves a record against its own direction only where a rule decides so and the record did not
      follow it. */
  lemma AgainstTheDefault(rules: seq<Rule>, lock: bool, records: map<Identity, KeyClass>)
    ensures var source, target := if lock then Interactive else Machine, if lock then Machine else Interactive;
            Moving(rules, NextDefault(lock), records, source, target) == {} <==>
              forall id :: id in records && records[id] == source && Ruled(rules, id) ==>
                (Locked(rules, Query(id.project, id.environment, Some(id.name)), MachineDefault) <==> lock)
  {
    var source, target := if lock then Interactive else Machine, if lock then Machine else Interactive;
    forall id | id in records && records[id] == source
      ensures id in Moving(rules, NextDefault(lock), records, source, target) <==>
                Ruled(rules, id) && Locked(rules, QueryOf(id), MachineDefault) != lock
    {
      DefaultDecides(rules, QueryOf(id), lock, MachineDefault);
    }
  }

  /** Coherent records follow their rules. */
  lemma CoherentFollowsRules(rules: seq<Rule>, default: Default, records: map<Identity, KeyClass>, id: Identity)
    requires Coherent(rules, default, records) && id in records && Ruled(rules, id)
    ensures Locked(rules, Query(id.project, id.environment, Some(id.name)), MachineDefault) <==>
              records[id] == Interactive
  {
    DefaultDecides(rules, QueryOf(id), false, default);
  }

  /** The preview counts every record once, in whatever order they are listed. It announces no move against the new
      default if and only if the records that a rule matches follow their rules that way; coherent records do. */
  method PreviewAuthorizationDefault(rules: seq<Rule>, lock: bool, records: map<Identity, KeyClass>)
    returns (preview: Preview)
    ensures Counts(preview, rules, NextDefault(lock), records)
    ensures lock ==> (preview.interactiveToMachine == 0 <==>
              forall id :: id in records && records[id] == Interactive && Ruled(rules, id) ==>
                Locked(rules, Query(id.project, id.environment, Some(id.name)), MachineDefault))
    ensures !lock ==> (preview.machineToInteractive == 0 <==>
              forall id :: id in records && records[id] == Machine && Ruled(rules, id) ==>
                !Locked(rules, Query(id.project, id.environment, Some(id.name)), MachineDefault))
    ensures forall default :: Coherent(rules, default, records) ==>
              (if lock then preview.interactiveToMachine else preview.machineToInteractive) == 0
  {
    var nextDefault := NextDefault(lock);
    preview := Preview(0, 0, 0, 0);
    var left := records.Keys;
    ghost var done: map<Identity, KeyClass> := map[];
    while left != {}
      invariant left <= records.Keys && done == map id | id in records && id !in left :: records[id]
      invariant Counts(preview, rules, nextDefault, done)
      decreases |left|
    {
      var id :| id in left;
      var locked := EvaluateAuthorizationRules(rules, QueryOf(id), nextDefault);
      CountOneMore(preview, rules, nextDefault, done, id, records[id]);
      preview := Counted(preview, records[id], if locked then Interactive else Machine);
      done := done[id := records[id]];
      left := left - {id};
    }
    assert done == records;
    AgainstTheDefault(rules, lock, records);
    forall default | Coherent(rules, default, records)
      ensures (if lock then preview.interactiveToMachine else preview.machineToInteractive) == 0
    {
      forall id | id in records && Ruled(rules, id)
        ensures Locked(rules, QueryOf(id), MachineDefault) <==> records[id] == Interactive
      {
        CoherentFollowsRules(rules, default, records, id);
      }
    }
  }

  /** The classes after a committed transition under new rules and default. */
  function Transitioned(rules: seq<Rule>, default: Default, records: map<Identity, KeyClass>): map<Identity, KeyClass> {
    map id | id in records :: Target(rules, default, id)
  }

  /** Behind a committed change of the default, what no rule matches has the class of the default, and coherent records
      move in its direction only. */
  lemma TransitionedByDefault(rules: seq<Rule>, lock: bool, records: map<Identity, KeyClass>)
    ensures var after := Transitioned(rules, NextDefault(lock), records);
            var class_ := if lock then Interactive else Machine;
            && (forall id :: id in records && !Ruled(rules, id) ==> after[id] == class_)
            && (forall default, id :: Coherent(rules, default, records) && id in records && after[id] != records[id] ==>
                  after[id] == class_)
  {
    var after := Transitioned(rules, NextDefault(lock), records);
    var class_ := if lock then Interactive else Machine;
    forall id | id in records && !Ruled(rules, id) ensures after[id] == class_ {
      DefaultDecides(rules, QueryOf(id), lock, MachineDefault);
    }
    forall default, id | Coherent(rules, default, records) && id in records && after[id] != records[id]
      ensures after[id] == class_
    {
      DefaultDecides(rules, QueryOf(id), lock, default);
    }
  }

  /** What changing the default does to the classes: nothing at all when the stored default is already that one. */
  function DefaultApplied(rules: seq<Rule>, stored: Option<Default>, lock: bool, records: map<Identity, KeyClass>)
    : map<Identity, KeyClass>
  {
    if stored == Some(NextDefault(lock)) then records else Transitioned(rules, NextDefault(lock), records)
  }

  function Changed(before: map<Identity, KeyClass>, after: map<Identity, KeyClass>, source: KeyClass): set<Identity>
    requires before.Keys == after.Keys
  {
    set id | id in before && before[id] == source && after[id] != source
  }

  /** The preview announces exactly what the change will do, if and only if the change is not skipped or every
      record has the class the rules already ask for. */
  lemma PreviewIsExactIff(rules: seq<Rule>, stored: Option<Default>, lock: bool, records: map<Identity, KeyClass>,
                          preview: Preview)
    requires Counts(preview, rules, NextDefault(lock), records)
    ensures var after := DefaultApplied(rules, stored, lock, records);
            (preview.machineToInteractive == |Changed(records, after, Machine)| &&
             preview.interactiveToMachine == |Changed(records, after, Interactive)|)
            <==> stored != Some(NextDefault(lock)) || Coherent(rules, NextDefault(lock), records)
  {
    var default, after := NextDefault(lock), DefaultApplied(rules, stored, lock, records);
    if stored != Some(default) {
      assert Changed(records, after, Machine) == Moving(rules, default, records, Machine, Interactive);
      assert Changed(records, after, Interactive) == Moving(rules, default, records, Interactive, Machine);
    } else {
      assert Changed(records, after, Machine) == {} && Changed(records, after, Interactive) == {};
      if !Coherent(rules, default, records) {
        var id :| id in records && records[id] != Target(rules, default, id);
        assert id in Moving(rules, default, records, records[id], Target(rules, default, id));
      }
    }
  }

  /** Under coherence with the stored default, the preview is always exact, and what it leaves unannounced stays. */
  lemma PreviewOfCoherentPolicy(rules: seq<Rule>, stored: Default, lock: bool, records: map<Identity, KeyClass>,
                                preview: Preview)
    requires Coherent(rules, stored, records) && Counts(preview, rules, NextDefault(lock), records)
    ensures var after := DefaultApplied(rules, Some(stored), lock, records);
            && preview.machineToInteractive == |Changed(records, after, Machine)|
            && preview.interactiveToMachine == |Changed(records, after, Interactive)|
            && Coherent(rules, NextDefault(lock), after)
  {
    PreviewIsExactIff(rules, Some(stored), lock, records, preview);
  }
}
