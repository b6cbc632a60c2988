/**
 Committing an authorization policy over four stores: the policy document, its anchor file, the database anchor,
 and the custody classes of the rows. The database transaction is the commit point; a pending file holds what to
 go back to before it.
*/
module PolicyCommit {
  import opened Options
  import opened Records
  import opened PolicyRules
  import opened Crashes

  /** `key` stands for the document's authentication code under that key. */
  datatype Document = Document(generation: nat, default: Default, rules: seq<Rule>, key: nat)

  /** Hashes are injective: a digest is the document it was taken of. */
  datatype Digest = Digest(document: Document)

  datatype Anchor = Anchor(key: nat, generation: nat, digest: Digest)

  datatype DatabaseAnchor = DatabaseAnchor(generation: nat, digest: Digest)

  datatype Pending = Pending(document: Option<Document>, anchor: Option<Anchor>, committed: Option<DatabaseAnchor>)

  /** The four stores that must change together. */
  datatype Stores = Stores(document: Option<Document>, anchor: Option<Anchor>, committed: Option<DatabaseAnchor>,
                           classes: map<Identity, KeyClass>)

  datatype Loading = Missing | Broken | Loaded(document: Document)

  function AnchorOf(document: Document): Anchor { Anchor(document.key, document.generation, Digest(document)) }

  function DatabaseAnchorOf(document: Document): DatabaseAnchor {
    DatabaseAnchor(document.generation, Digest(document))
  }

  /** The two policy files, authenticated against each other. */
  function LoadPolicyFrom(document: Option<Document>, anchor: Option<Anchor>): Loading {
    if document.None? && anchor.None? then Missing
    else if document.None? || anchor.None? then Broken
    else if document.value.generation != anchor.value.generation then Broken
    else if Digest(document.value) != anchor.value.digest then Broken
    else if document.value.key != anchor.value.key then Broken
    else if !Unique(document.value.rules) then Broken
    else Loaded(document.value)
  }

  /** A document is accepted exactly beside the anchor with its own key, generation and digest, and with at most one
      rule for a selector; no policy is the absence of both files. */
  lemma LoadedIff(document: Option<Document>, anchor: Option<Anchor>, loaded: Document)
    ensures LoadPolicyFrom(document, anchor) == Loaded(loaded) <==>
              && document == Some(loaded) && anchor == Some(Anchor(loaded.key, loaded.generation, Digest(loaded)))
              && forall i, j :: 0 <= i < j < |loaded.rules| ==> loaded.rules[i].selector != loaded.rules[j].selector
    ensures LoadPolicyFrom(document, anchor) == Missing <==> document == None && anchor == None
  {
  }

  /** A settled policy: none anywhere, or one document that both anchors name. */
  ghost predicate Settled(stores: Stores) {
    match LoadPolicyFrom(stores.document, stores.anchor)
    case Missing => stores.committed == None
    case Broken => false
    case Loaded(document) => stores.committed == Some(DatabaseAnchorOf(document))
  }

  datatype DatabaseMutation = NoMutation | TransitionCustody | RefusedTransition

  function NextDocument(loaded: Option<Document>, default: Default, rules: seq<Rule>, freshKey: nat): Document {
    match loaded
    case Some(document) => Document(document.generation + 1, default, rules, document.key)
    case None => Document(1, default, rules, freshKey)
  }

  function NextClasses(classes: map<Identity, KeyClass>, next: Document, mutation: DatabaseMutation)
    : map<Identity, KeyClass>
  {
    if mutation.TransitionCustody? then Transitioned(next.rules, next.default, classes) else classes
  }

  /** The whole new quadruple. */
  function Committed(stores: Stores, next: Document, mutation: DatabaseMutation): Stores {
    Stores(Some(next), Some(AnchorOf(next)), Some(DatabaseAnchorOf(next)), NextClasses(stores.classes, next, mutation))
  }

  function PendingOf(stores: Stores): Pending { Pending(stores.document, stores.anchor, stores.committed) }

  /** Every state a commit, its recovery, or a recovery of that recovery can be cut in. Before the commit point the
      database is wholly old, the two files are each old or new, and the pending file is there unless nothing
      changed; behind it, all four stores are new. */
  ghost predicate Within(before: Stores, after: Stores, committed: bool, stores: Stores, pending: Option<Pending>) {
    && (pending.Some? ==> pending == Some(PendingOf(before)))
    && if committed then stores == after
       else
         && stores.committed == before.committed && stores.classes == before.classes
         && stores.document in {before.document, after.document} && stores.anchor in {before.anchor, after.anchor}
         && (pending.None? ==> stores == before)
  }

  /** The two sides of one commit. */
  ghost predicate Commit(before: Stores, after: Stores) {
    && Settled(before) && Settled(after) && after.document.Some?
    && (before.document.Some? ==> after.document.value.generation > before.document.value.generation)
  }

  /** In such a state the files and the database agree only on a whole quadruple. */
  lemma AgreementIsWhole(before: Stores, after: Stores, committed: bool, stores: Stores, pending: Option<Pending>)
    requires Commit(before, after) && Within(before, after, committed, stores, pending)
    ensures Settled(stores) <==> stores == if committed then after else before
  {
  }

  /** The primitives of a commit up to the one that commits the database. */
  const POLICY_COMMIT: nat := 7

  /** Primitives that suffice for a commit and for the recovery after its failure. */
  const COMMIT_STEPS: nat := 16

  /** The first exception is the one right behind the database commit. */
  predicate ThrowsBehindCommit(mutation: DatabaseMutation, faults: Faults) {
    !mutation.RefusedTransition? && faults.Throws? && faults.steps == POLICY_COMMIT
  }

  class PolicyProcess {
    const fuse: Fuse
    var stores: Stores
    var pending: Option<Pending>
    ghost var databaseCommitted: bool

    ghost predicate Safe(before: Stores, after: Stores)
      reads this
    {
      Commit(before, after) && Within(before, after, databaseCommitted, stores, pending)
    }

    constructor (stores: Stores, fuse: Fuse)
      ensures this.stores == stores && this.fuse == fuse && pending == None && !databaseCommitted
    {
      this.stores, this.fuse, pending, databaseCommitted := stores, fuse, None, false;
    }

    /** Replaces the policy document; the rename is atomic, and the exception may come before or after it. */
    method WriteDocument(document: Document) returns (s: Status)
      modifies this`stores, fuse
      ensures fuse.Ran(s, 2)
      ensures stores == old(stores).(document := Some(document)) || (!s.Ok? && stores == old(stores))
    {
      s := fuse.Primitive();
      if !s.Ok? { return; }
      stores := stores.(document := Some(document));
      s := fuse.Primitive();
    }

    method WriteAnchor(anchor: Anchor) returns (s: Status)
      modifies this`stores, fuse
      ensures fuse.Ran(s, 2)
      ensures stores == old(stores).(anchor := Some(anchor)) || (!s.Ok? && stores == old(stores))
    {
      s := fuse.Primitive();
      if !s.Ok? { return; }
      stores := stores.(anchor := Some(anchor));
      s := fuse.Primitive();
    }

    method WritePending(value: Pending) returns (s: Status)
      modifies this`pending, fuse
      ensures fuse.Ran(s, 2)
      ensures pending == Some(value) || (!s.Ok? && pending == old(pending))
    {
      s := fuse.Primitive();
      if !s.Ok? { return; }
      pending := Some(value);
      s := fuse.Primitive();
    }

    method UnlinkPending() returns (s: Status)
      modifies this`pending, fuse
      ensures fuse.Ran(s, 2)
      ensures pending == None || (!s.Ok? && pending == old(pending))
    {
      s := fuse.Primitive();
      if !s.Ok? { return; }
      pending := None;
      s := fuse.Primitive();
    }

    method UnlinkDocument() returns (s: Status)
      modifies this`stores, fuse
      ensures fuse.Ran(s, 1)
      ensures stores == if s.Ok? then old(stores).(document := None) else old(stores)
    {
      s := fuse.Primitive();
      if s.Ok? { stores := stores.(document := None); }
    }

    method UnlinkAnchor() returns (s: Status)
      modifies this`stores, fuse
      ensures fuse.Ran(s, 1)
      ensures stores == if s.Ok? then old(stores).(anchor := None) else old(stores)
    {
      s := fuse.Primitive();
      if s.Ok? { stores := stores.(anchor := None); }
    }

    /** One database transaction: the anchor, and with it the custody of every row. It commits wholly or not at all,
        and an exception may still follow the commit. */
    method WriteDatabaseAnchor(anchor: Option<DatabaseAnchor>, classes: map<Identity, KeyClass>, refused: bool)
      returns (s: Status, ghost done: bool)
      modifies this`stores, fuse
      ensures refused ==> !s.Ok? && fuse.Used(s, 1)
      ensures !refused ==> fuse.Ran(s, 2)
      ensures done <==> !refused && old(fuse.Calm(1))
      ensures stores == if done then old(stores).(committed := anchor, classes := classes) else old(stores)
    {
      done := false;
      s := fuse.Primitive();
      if !s.Ok? { return; }
      if refused { return Threw, false; }
      stores := stores.(committed := anchor, classes := classes);
      done := true;
      s := fuse.Primitive();
    }

    /** Puts the two files back to what the pending file holds. */
    method RestoreFiles(value: Pending, ghost before: Stores, ghost after: Stores) returns (s: Status)
      requires Safe(before, after) && !databaseCommitted && pending == Some(value)
      modifies this`stores, fuse
      ensures Safe(before, after) && fuse.Spent(s, 4)
      ensures s.Ok? ==> stores == before
    {
      if value.document.None? {
        s := UnlinkDocument();
        if !s.Ok? { return; }
        s := UnlinkAnchor();
      } else {
        if value.anchor.None? { return Threw; }
        s := WriteDocument(value.document.value);
        if !s.Ok? { return; }
        s := WriteAnchor(value.anchor.value);
      }
    }

    /** Recovery, on the evidence of the files and the database anchor alone. Success means a whole quadruple; the
        pending file may then outlive it only because its removal failed. */
    method RecoverInterruptedPolicy(ghost before: Stores, ghost after: Stores) returns (s: Status)
      requires Safe(before, after)
      modifies this`stores, this`pending, fuse
      ensures Safe(before, after) && fuse.Spent(s, 8)
      ensures s.Ok? ==> stores == if databaseCommitted then after else before
      ensures s.Ok? && old(fuse.faults).Quiet? ==> pending.None?
    {
      AgreementIsWhole(before, after, databaseCommitted, stores, pending);
      if pending.None? { return Ok; }
      var value := pending.value;
      var current := LoadPolicyFrom(stores.document, stores.anchor);
      if current.Loaded? && stores.committed == Some(DatabaseAnchorOf(current.document)) {
        s := UnlinkPending();
        if s.Threw? { s := Ok; }
        return;
      }
      if value.document.None? != value.anchor.None? { return Threw; }
      if value.committed != stores.committed { return Threw; }
      s := RestoreFiles(value, before, after);
      if !s.Ok? { return; }
      ghost var done;
      s, done := WriteDatabaseAnchor(value.committed, stores.classes, false);
      if !s.Ok? { return; }
      s := UnlinkPending();
    }

    /** Everything a commit does before its cleanup. */
    method Publish(next: Document, mutation: DatabaseMutation, ghost before: Stores, ghost after: Stores)
      returns (s: Status)
      requires Safe(before, after) && !databaseCommitted && stores == before && pending.Some?
      requires after == Committed(before, next, mutation)
      modifies this`stores, this`databaseCommitted, fuse
      ensures Safe(before, after)
      ensures mutation.RefusedTransition? ==> !s.Ok? && fuse.Used(s, 5)
      ensures !mutation.RefusedTransition? ==> fuse.Ran(s, 6)
      ensures databaseCommitted <==> !mutation.RefusedTransition? && old(fuse.Calm(5))
    {
      s := WriteDocument(next);
      if !s.Ok? { return; }
      s := WriteAnchor(AnchorOf(next));
      if !s.Ok? { return; }
      ghost var done;
      var classes := NextClasses(stores.classes, next, mutation);
      s, done := WriteDatabaseAnchor(Some(DatabaseAnchorOf(next)), classes, mutation.RefusedTransition?);
      databaseCommitted := done;
    }

    /** One commit. Success means the new quadruple. A reported failure has changed everything if and only if it is
        the exception right behind the database commit; before that, with the pending file gone, it has changed
        nothing. Undisturbed, exactly a refused transition fails. */
    method CommitPolicyDocument(loaded: Option<Document>, default: Default, rules: seq<Rule>, freshKey: nat,
                                mutation: DatabaseMutation, ghost before: Stores, ghost after: Stores)
      returns (s: Status)
      requires stores == before && Settled(before) && pending.None? && !databaseCommitted && Unique(rules)
      requires loaded == before.document
      requires after == Committed(before, NextDocument(loaded, default, rules, freshKey), mutation)
      modifies this, fuse
      ensures Safe(before, after)
      ensures fuse.Used(s, COMMIT_STEPS)
      ensures s.Ok? ==> databaseCommitted
      ensures databaseCommitted <==> !mutation.RefusedTransition? && old(fuse.Calm(POLICY_COMMIT))
      ensures !s.Died? ==> (s.Threw? && databaseCommitted <==> ThrowsBehindCommit(mutation, old(fuse.faults)))
      ensures old(fuse.faults).Quiet? && !s.Died? ==> pending.None? && (s.Ok? <==> !mutation.RefusedTransition?)
    {
      var next := NextDocument(loaded, default, rules, freshKey);
      var committed := if loaded.Some? then Some(DatabaseAnchorOf(loaded.value)) else None;
      s := WritePending(Pending(stores.document, stores.anchor, committed));
      if !s.Ok? { return; }
      s := Publish(next, mutation, before, after);
      if s.Died? { return; }
      if s.Threw? {
        s := RecoverInterruptedPolicy(before, after);
        if s.Ok? { s := Threw; }
        return;
      }
      s := UnlinkPending();
      if s.Threw? { s := Ok; }
    }
  }

  /** A policy whose rows have the class its rules ask for. */
  ghost predicate PolicyCoherent(stores: Stores) {
    stores.document.Some? && Coherent(stores.document.value.rules, stores.document.value.default, stores.classes)
  }

  /** A commit that may die or throw anywhere, then recoveries that may each be cut anywhere, then one with enough
      fuel: the whole old or the whole new quadruple, new exactly when the first process reached the commit of the
      database and the transition was not refused, and no pending file. A commit that moves custody never ends between
      the two: rows and rules agree behind it whenever they agreed before. The first policy of a vault (`before` has
      none) is no exception. */
  method CommitAcrossCrashes(p: PolicyProcess, loaded: Option<Document>, default: Default, rules: seq<Rule>,
                             freshKey: nat, mutation: DatabaseMutation, cuts: seq<Cut>,
                             ghost before: Stores, ghost after: Stores)
    requires p.stores == before && Settled(before) && p.pending.None? && !p.databaseCommitted && Unique(rules)
    requires loaded == before.document
    requires after == Committed(before, NextDocument(loaded, default, rules, freshKey), mutation)
    modifies p, p.fuse
    ensures p.stores == (if p.databaseCommitted then after else before) && p.pending.None?
    ensures Settled(p.stores)
    ensures p.databaseCommitted <==> !mutation.RefusedTransition? && old(p.fuse.Calm(POLICY_COMMIT))
    ensures mutation.TransitionCustody? && (p.databaseCommitted || PolicyCoherent(before)) ==> PolicyCoherent(p.stores)
    ensures p.stores.classes.Keys == before.classes.Keys
  {
    var s := p.CommitPolicyDocument(loaded, default, rules, freshKey, mutation, before, after);
    ghost var committed := p.databaseCommitted;
    for n := 0 to |cuts|
      invariant p.Safe(before, after) && p.databaseCommitted == committed
    {
      p.fuse.Reset(cuts[n]);
      s := p.RecoverInterruptedPolicy(before, after);
    }
    p.fuse.Reset(Cut(9, Quiet));
    s := p.RecoverInterruptedPolicy(before, after);
  }

  // ---- the operations a commit serves -----------------------------------------------------------------------------

  function RulesOf(stores: Stores): seq<Rule> {
    if stores.document.Some? then stores.document.value.rules else []
  }

  function DefaultOf(stores: Stores, seed: Default): Default {
    if stores.document.Some? then stores.document.value.default else seed
  }

  function StoredDefault(stores: Stores): Option<Default> {
    if stores.document.Some? then Some(stores.document.value.default) else None
  }

  function GenerationOf(stores: Stores): nat {
    if stores.document.Some? then stores.document.value.generation else 0
  }

  /** What a committed operation changes besides its document's rules and default. */
  ghost predicate Changed(before: Stores, after: Stores, mutation: DatabaseMutation) {
    && Settled(after) && GenerationOf(after) == GenerationOf(before) + 1
    && after.classes.Keys == before.classes.Keys
    && (mutation.TransitionCustody? ==> PolicyCoherent(after))
    && (mutation.NoMutation? ==> after.classes == before.classes)
    && (before.document.Some? ==> after.document.value.key == before.document.value.key)
  }

  /** An operation that returns did everything, or it reports failure and did nothing that recovery will not undo;
      it did everything and reports failure exactly on an exception right behind the database commit. */
  twostate predicate AllOrNothing(p: PolicyProcess, s: Status, commit: bool, mutation: DatabaseMutation)
    reads p, p.fuse
  {
    && (p.databaseCommitted ==> Changed(old(p.stores), p.stores, mutation))
    && (!p.databaseCommitted && p.pending.None? ==> p.stores == old(p.stores))
    && (!commit ==> s.Ok? && !p.databaseCommitted && p.pending.None?)
    && (s.Ok? && commit ==> p.databaseCommitted)
    && (p.databaseCommitted <==> commit && !mutation.RefusedTransition? && old(p.fuse.Calm(POLICY_COMMIT)))
    && (!s.Died? && commit ==>
          (s.Threw? && p.databaseCommitted <==> ThrowsBehindCommit(mutation, old(p.fuse.faults))))
    && (!s.Died? && old(p.fuse.faults).Quiet? ==>
          p.pending.None? && (s.Ok? <==> !commit || !mutation.RefusedTransition?))
  }

  /** Lock, unlock or inherit: the map of rules changes as asked, the default stays, and where the map would not
      change nothing is written at all. */
  method MutateAuthorizationRule(p: PolicyProcess, selector: Selector, action: Action, seed: Default, freshKey: nat,
                                 mutation: DatabaseMutation) returns (s: Status, commit: bool)
    requires Settled(p.stores) && p.pending.None? && !p.databaseCommitted
    modifies p, p.fuse
    ensures AllOrNothing(p, s, commit, mutation)
    ensures commit <==> Mutated(AsMap(RulesOf(old(p.stores))), selector, action) != AsMap(RulesOf(old(p.stores)))
    ensures s.Ok? || p.databaseCommitted ==>
              && AsMap(RulesOf(p.stores)) == Mutated(AsMap(RulesOf(old(p.stores))), selector, action)
              && DefaultOf(p.stores, seed) == DefaultOf(old(p.stores), seed)
  {
    var next;
    next, commit := MutateRule(RulesOf(p.stores), selector, action);
    if !commit { return Ok, false; }
    var default := DefaultOf(p.stores, seed);
    ghost var before := p.stores;
    ghost var after := Committed(before, NextDocument(before.document, default, next, freshKey), mutation);
    s := p.CommitPolicyDocument(p.stores.document, default, next, freshKey, mutation, before, after);
  }

  /** A new default: rules stay, and where the stored default is already the requested one nothing is written. The
      default then decides what no rule matches: a lock locks it and moves it to interactive custody, an unlock unlocks
      it and moves it to machine custody, and no coherent record moves the other way. */
  method MutateAuthorizationDefault(p: PolicyProcess, lock: bool, freshKey: nat, mutation: DatabaseMutation)
    returns (s: Status, commit: bool)
    requires Settled(p.stores) && p.pending.None? && !p.databaseCommitted
    modifies p, p.fuse
    ensures AllOrNothing(p, s, commit, mutation)
    ensures commit <==> old(p.stores.document.None? || p.stores.document.value.default != NextDefault(lock))
    ensures s.Ok? || p.databaseCommitted ==>
              && DefaultOf(p.stores, LegacyMachineDefault) == NextDefault(lock)
              && RulesOf(p.stores) == RulesOf(old(p.stores))
    ensures (s.Ok? || p.databaseCommitted) && mutation.TransitionCustody? ==>
              p.stores.classes == DefaultApplied(RulesOf(old(p.stores)), StoredDefault(old(p.stores)), lock,
                                                 old(p.stores).classes)
    ensures s.Ok? || p.databaseCommitted ==>
              forall q :: (forall rule :: rule in RulesOf(p.stores) ==> !Matches(rule.selector, q)) ==>
                (Locked(RulesOf(p.stores), q, DefaultOf(p.stores, LegacyMachineDefault)) <==> lock)
    ensures p.databaseCommitted && mutation.TransitionCustody? ==>
              forall id :: id in p.stores.classes && !Ruled(RulesOf(p.stores), id) ==>
                p.stores.classes[id] == if lock then Interactive else Machine
    ensures (s.Ok? || p.databaseCommitted) && mutation.TransitionCustody? ==>
              forall default, id ::
                && Coherent(RulesOf(p.stores), default, old(p.stores.classes))
                && id in p.stores.classes && p.stores.classes[id] != old(p.stores.classes)[id] ==>
                  p.stores.classes[id] == if lock then Interactive else Machine
  {
    var default := NextDefault(lock);
    commit := p.stores.document.None? || p.stores.document.value.default != default;
    forall q | forall rule :: rule in RulesOf(p.stores) ==> !Matches(rule.selector, q)
      ensures Locked(RulesOf(p.stores), q, default) <==> lock
    {
      DefaultDecides(RulesOf(p.stores), q, lock, default);
    }
    if !commit { return Ok, false; }
    var rules := RulesOf(p.stores);
    ghost var before := p.stores;
    ghost var after := Committed(before, NextDocument(before.document, default, rules, freshKey), mutation);
    s := p.CommitPolicyDocument(p.stores.document, default, rules, freshKey, mutation, before, after);
    TransitionedByDefault(rules, lock, before.classes);
  }
}
