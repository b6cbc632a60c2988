/**
 The lock protocol between processes: check for pending work, lock, check again under a shared lock, and run.

 The system is any number of processes taking steps in any order; a process may exit or be killed in every phase,
 which releases its lock. A recovery may leave any work pending. The body of a command, whatever lock it runs
 under, may finish any work and may leave half done what its own command starts. The first check is made without a
 lock, so it may answer anything.
*/
module LifecycleLock {
  datatype Mode = Shared | Exclusive

  datatype Held = Nothing | Holding(mode: Mode)

  /** `liveIndependentRestore` is a managed restore, which needs no recovery before it. */
  datatype Invocation = Invocation(command: string, liveIndependentRestore: bool)

  datatype Phase = Checking | Waiting(mode: Mode) | Rechecking | Escalating | Recovering | Running

  datatype Process = Process(invocation: Invocation, phase: Phase, held: Held)

  /** The work that only one process at a time may do, kind by kind. */
  datatype Work =
    | ManagedRestore | LegacyKey | DualKeyMigration | CustodyTransition | PolicyMutation | CustodySanitization
    | DefaultMigration

  datatype System = System(processes: map<nat, Process>, pending: set<Work>)

  datatype Event =
    | Start(pid: nat, invocation: Invocation)
    | FirstCheck(pid: nat, answer: bool)
    | Acquire(pid: nat)
    | Recheck(pid: nat)
    | RecoveryStep(pid: nat, left: set<Work>)
    | RecoveryDone(pid: nat)
    | BodyStep(pid: nat, started: set<Work>, finished: set<Work>)
    | Leave(pid: nat)

  const EXCLUSIVE_COMMANDS := {"init", "lock", "unlock", "inherit", "passphrase", "backup", "rename"}

  function LifecycleModeForCommand(command: string): Mode {
    if command in EXCLUSIVE_COMMANDS then Exclusive else Shared
  }

  /** What the body of a command can leave half done. A restore replaces the whole vault, with whatever its backup
      still had to do. */
  function Raises(command: string): set<Work> {
    if command == "init" then {PolicyMutation, DefaultMigration}
    else if command in {"lock", "unlock", "inherit"} then {PolicyMutation, CustodySanitization, CustodyTransition}
    else if command == "passphrase" then {CustodyTransition}
    else if command == "backup" then
      {ManagedRestore, LegacyKey, DualKeyMigration, CustodyTransition, PolicyMutation, CustodySanitization,
       DefaultMigration}
    else {}
  }

  /** The table of exclusive commands covers every command that starts such work, and has one entry besides. */
  lemma RaisingCommandsAreExclusive(command: string)
    ensures Raises(command) != {} <==> LifecycleModeForCommand(command) == Exclusive && command != "rename"
  {
    if Raises(command) == {} {
      assert CustodyTransition !in Raises(command);
      assert PolicyMutation !in Raises(command);
    }
  }

  /** The table by kind of work. */
  lemma RaisedBy(command: string)
    ensures ManagedRestore in Raises(command) <==> command == "backup"
    ensures LegacyKey in Raises(command) || DualKeyMigration in Raises(command) <==> command == "backup"
    ensures DefaultMigration in Raises(command) <==> command in {"init", "backup"}
    ensures PolicyMutation in Raises(command) <==> command in {"init", "lock", "unlock", "inherit", "backup"}
    ensures CustodySanitization in Raises(command) <==> command in {"lock", "unlock", "inherit", "backup"}
    ensures CustodyTransition in Raises(command) <==> command in {"lock", "unlock", "inherit", "passphrase", "backup"}
  {
  }

  /** The mode a process asks for after its first check. */
  function ModeAfterCheck(invocation: Invocation, answer: bool): Mode {
    if invocation.liveIndependentRestore then Exclusive
    else if answer then Exclusive
    else LifecycleModeForCommand(invocation.command)
  }

  /** A shared lock waits for exclusive holders, an exclusive lock for every holder. */
  predicate Grantable(s: System, pid: nat, mode: Mode) {
    forall other :: other in s.processes && other != pid ==>
      s.processes[other].held == Nothing || (mode == Shared && s.processes[other].held == Holding(Shared))
  }

  function With(s: System, pid: nat, p: Process): System { s.(processes := s.processes[pid := p]) }

  /** One step; an event that is not possible changes nothing. */
  function Next(s: System, event: Event): System {
    var pid := event.pid;
    if event.Start? then
      if pid in s.processes then s else With(s, pid, Process(event.invocation, Checking, Nothing))
    else if pid !in s.processes then s
    else
      var p := s.processes[pid];
      match event
      case FirstCheck(_, answer) =>
        if p.phase == Checking then With(s, pid, p.(phase := Waiting(ModeAfterCheck(p.invocation, answer)))) else s
      case Acquire(_) =>
        if p.phase.Waiting? && Grantable(s, pid, p.phase.mode) then
          var next := if p.phase.mode == Shared then Rechecking
                      else if p.invocation.liveIndependentRestore then Running
                      else Recovering;
          With(s, pid, p.(phase := next, held := Holding(p.phase.mode)))
        else if p.phase == Escalating && Grantable(s, pid, Exclusive) then
          With(s, pid, p.(phase := Recovering, held := Holding(Exclusive)))
        else s
      case Recheck(_) =>
        if p.phase != Rechecking then s
        else if s.pending != {} then With(s, pid, p.(phase := Escalating, held := Nothing))
        else With(s, pid, p.(phase := Running))
      case RecoveryStep(_, left) => if p.phase == Recovering then s.(pending := left) else s
      case RecoveryDone(_) => if p.phase == Recovering then With(s, pid, p.(phase := Running)) else s
      case BodyStep(_, started, finished) =>
        if p.phase == Running then
          s.(pending := s.pending - finished + started * Raises(p.invocation.command))
        else s
      case Leave(_) => s.(processes := s.processes - {pid})
  }

  function Run(start: System, trace: seq<Event>): System {
    if trace == [] then start else Next(Run(start, trace[..|trace| - 1]), trace[|trace| - 1])
  }

  // ---- invariant --------------------------------------------------------------------------------------------------

  /** Lock and phase fit together. */
  predicate Consistent(p: Process) {
    match p.phase
    case Checking => p.held == Nothing
    case Waiting(mode) => p.held == Nothing && (mode == Shared ==> MayShare(p.invocation))
    case Rechecking => p.held == Holding(Shared) && MayShare(p.invocation)
    case Escalating => p.held == Nothing
    case Recovering => p.held == Holding(Exclusive)
    case Running => p.held == Holding(Exclusive) || (p.held == Holding(Shared) && MayShare(p.invocation))
  }

  predicate MayShare(invocation: Invocation) {
    !invocation.liveIndependentRestore && LifecycleModeForCommand(invocation.command) == Shared
  }

  ghost predicate Excluded(s: System) {
    forall p, q :: p in s.processes && q in s.processes && p != q && s.processes[p].held == Holding(Exclusive) ==>
      s.processes[q].held == Nothing
  }

  /** A body that runs under a shared lock. */
  predicate SharedBody(p: Process) { p.phase == Running && p.held == Holding(Shared) }

  ghost predicate Invariant(s: System) {
    && (forall p :: p in s.processes ==> Consistent(s.processes[p]))
    && Excluded(s)
    && (forall p :: p in s.processes && SharedBody(s.processes[p]) ==> s.pending == {})
  }

  lemma GrantKeepsExclusion(s: System, pid: nat, p: Process)
    requires Excluded(s) && pid in s.processes && p.held.Holding? && Grantable(s, pid, p.held.mode)
    ensures Excluded(With(s, pid, p))
  {
  }

  lemma StepKeepsInvariant(s: System, event: Event)
    requires Invariant(s)
    ensures Invariant(Next(s, event))
  {
    var pid := event.pid;
    if pid in s.processes {
      var p := s.processes[pid];
      if event.Acquire? && p.phase.Waiting? && Grantable(s, pid, p.phase.mode) {
        GrantKeepsExclusion(s, pid, Next(s, event).processes[pid]);
      }
      if event.Acquire? && p.phase == Escalating && Grantable(s, pid, Exclusive) {
        GrantKeepsExclusion(s, pid, Next(s, event).processes[pid]);
      }
      if event.BodyStep? && SharedBody(p) { RaisingCommandsAreExclusive(p.invocation.command); }
    }
  }

  const QUIET := System(map[], {})

  lemma {:induction false} RunKeepsInvariant(start: System, trace: seq<Event>)
    requires Invariant(start)
    ensures Invariant(Run(start, trace))
    decreases |trace|
  {
    if trace == [] {
    } else {
      RunKeepsInvariant(start, trace[..|trace| - 1]);
      StepKeepsInvariant(Run(start, trace[..|trace| - 1]), trace[|trace| - 1]);
    }
  }

  // ---- main results -----------------------------------------------------------------------------------------------

  /** In every run, from whatever pending work was left: while a body runs under a shared lock nothing is pending
      and its command starts nothing, no process holds the lock exclusively, and the command is one that asked for
      the shared mode. */
  lemma NoPendingWorkUnderSharedLock(pendingBefore: set<Work>, trace: seq<Event>, pid: nat)
    ensures var s := Run(System(map[], pendingBefore), trace);
            pid in s.processes && SharedBody(s.processes[pid]) ==>
              && s.pending == {} && Raises(s.processes[pid].invocation.command) == {}
              && s.processes[pid].invocation.command !in EXCLUSIVE_COMMANDS
              && (forall other :: other in s.processes ==> s.processes[other].held != Holding(Exclusive))
  {
    var start := System(map[], pendingBefore);
    RunKeepsInvariant(start, trace);
    var s := Run(start, trace);
    if pid in s.processes && SharedBody(s.processes[pid]) {
      assert s.processes[pid].held == Holding(Shared);
      RaisingCommandsAreExclusive(s.processes[pid].invocation.command);
    }
  }

  /** Pending work of every kind appears or disappears only in steps of the one process that holds the lock
      exclusively, although no step of a body looks at the lock. */
  lemma OnlyTheHolderChangesWork(pendingBefore: set<Work>, trace: seq<Event>, event: Event)
    ensures var s := Run(System(map[], pendingBefore), trace);
            Next(s, event).pending != s.pending ==>
              event.pid in s.processes && s.processes[event.pid].held == Holding(Exclusive) &&
              forall other :: other in s.processes && other != event.pid ==> s.processes[other].held == Nothing
  {
    var s := Run(System(map[], pendingBefore), trace);
    RunKeepsInvariant(System(map[], pendingBefore), trace);
    if event.BodyStep? && event.pid in s.processes && SharedBody(s.processes[event.pid]) {
      RaisingCommandsAreExclusive(s.processes[event.pid].invocation.command);
    }
  }

  // ---- why the second check is there ------------------------------------------------------------------------------

  const GET := Invocation("get", false)
  const LOCK := Invocation("lock", false)

  const GET_WAITS := Process(GET, Waiting(Shared), Nothing)
  const BOTH_WAITING := System(map[0 := GET_WAITS, 1 := Process(LOCK, Waiting(Exclusive), Nothing)], {})
  const LOCKING := System(map[0 := GET_WAITS, 1 := Process(LOCK, Running, Holding(Exclusive))], {})
  const ABANDONED := System(map[0 := GET_WAITS], {PolicyMutation})

  lemma TwoSteps(start: System, trace: seq<Event>, first: Event, second: Event)
    ensures Run(start, trace + [first, second]) == Next(Next(Run(start, trace), first), second)
  {
    var one := trace + [first];
    assert one[..|trace|] == trace;
    assert (trace + [first, second])[..|trace| + 1] == one;
  }

  lemma BothWait(trace: seq<Event>)
    requires trace == [Start(0, GET), FirstCheck(0, false)] + [Start(1, LOCK), FirstCheck(1, false)]
    ensures Run(QUIET, trace) == BOTH_WAITING
  {
    TwoSteps(QUIET, [], Start(0, GET), FirstCheck(0, false));
    assert [] + [Start(0, GET), FirstCheck(0, false)] == [Start(0, GET), FirstCheck(0, false)];
    assert Run(QUIET, [Start(0, GET), FirstCheck(0, false)]).processes == map[0 := GET_WAITS];
    TwoSteps(QUIET, [Start(0, GET), FirstCheck(0, false)], Start(1, LOCK), FirstCheck(1, false));
    assert Run(QUIET, trace).processes == BOTH_WAITING.processes;
  }

  lemma LockRuns()
    ensures Next(Next(BOTH_WAITING, Acquire(1)), RecoveryDone(1)) == LOCKING
  {
    assert Grantable(BOTH_WAITING, 1, Exclusive);
    assert Next(Next(BOTH_WAITING, Acquire(1)), RecoveryDone(1)).processes == LOCKING.processes;
  }

  lemma LockDies()
    ensures Next(Next(LOCKING, BodyStep(1, {PolicyMutation}, {})), Leave(1)) == ABANDONED
  {
    assert Next(Next(LOCKING, BodyStep(1, {PolicyMutation}, {})), Leave(1)).processes == ABANDONED.processes;
  }

  lemma WorkIsAbandoned(waiting: seq<Event>, trace: seq<Event>)
    requires waiting == [Start(0, GET), FirstCheck(0, false)] + [Start(1, LOCK), FirstCheck(1, false)]
    requires trace == waiting + [Acquire(1), RecoveryDone(1)] + [BodyStep(1, {PolicyMutation}, {}), Leave(1)]
    ensures Run(QUIET, trace) == ABANDONED
  {
    BothWait(waiting);
    TwoSteps(QUIET, waiting, Acquire(1), RecoveryDone(1));
    LockRuns();
    TwoSteps(QUIET, waiting + [Acquire(1), RecoveryDone(1)], BodyStep(1, {PolicyMutation}, {}), Leave(1));
    LockDies();
  }

  lemma SharedLockMeetsWork()
    ensures var s := Next(ABANDONED, Acquire(0));
            0 in s.processes && s.processes[0].phase == Rechecking && s.pending != {}
  {
    assert Grantable(ABANDONED, 0, Shared);
  }

  /** The second check is needed: a process whose first check found nothing can hold the shared lock while work is
      pending, because another process started it in between and died. */
  lemma FirstCheckIsNotEnough()
    ensures exists trace :: var s := Run(QUIET, trace);
              0 in s.processes && s.processes[0].phase == Rechecking && s.pending != {} && FirstCheck(0, false) in trace
  {
    var waiting := [Start(0, GET), FirstCheck(0, false)] + [Start(1, LOCK), FirstCheck(1, false)];
    var abandoned := waiting + [Acquire(1), RecoveryDone(1)] + [BodyStep(1, {PolicyMutation}, {}), Leave(1)];
    var trace := abandoned + [Acquire(0)];
    WorkIsAbandoned(waiting, abandoned);
    SharedLockMeetsWork();
    assert trace[..|abandoned|] == abandoned;
    assert trace[1] == FirstCheck(0, false);
    assert Run(QUIET, trace) == Next(ABANDONED, Acquire(0));
  }

  // ---- shared bodies do run side by side --------------------------------------------------------------------------

  lemma FourSteps(start: System, trace: seq<Event>, e1: Event, e2: Event, e3: Event, e4: Event)
    ensures Run(start, trace + [e1, e2, e3, e4]) == Next(Next(Next(Next(Run(start, trace), e1), e2), e3), e4)
  {
    TwoSteps(start, trace, e1, e2);
    TwoSteps(start, trace + [e1, e2], e3, e4);
    assert trace + [e1, e2] + [e3, e4] == trace + [e1, e2, e3, e4];
  }

  /** A process with this invocation that is in its body. */
  function Body(invocation: Invocation, mode: Mode): Process { Process(invocation, Running, Holding(mode)) }

  lemma Joins(s: System, pid: nat, invocation: Invocation)
    requires pid !in s.processes && s.pending == {} && Grantable(s, pid, Shared) && MayShare(invocation)
    ensures Next(Next(Next(Next(s, Start(pid, invocation)), FirstCheck(pid, false)), Acquire(pid)), Recheck(pid)) ==
              With(s, pid, Body(invocation, Shared))
  {
    var waiting := With(s, pid, Process(invocation, Waiting(Shared), Nothing));
    assert Next(Next(s, Start(pid, invocation)), FirstCheck(pid, false)).processes == waiting.processes;
    assert Grantable(waiting, pid, Shared);
    var holding := With(s, pid, Process(invocation, Rechecking, Holding(Shared)));
    assert Next(waiting, Acquire(pid)).processes == holding.processes;
    assert Next(holding, Recheck(pid)).processes == With(s, pid, Body(invocation, Shared)).processes;
  }

  /** Two processes are in the bodies of these commands at the same time. */
  ghost predicate Overlap(s: System, one: Invocation, other: Invocation) {
    exists p, q :: p in s.processes && q in s.processes && p != q
      && s.processes[p].invocation == one && s.processes[p].phase == Running
      && s.processes[q].invocation == other && s.processes[q].phase == Running
  }

  /** A body of an exclusive command runs alone, whatever work was left. */
  lemma ExclusiveBodyIsAlone(pendingBefore: set<Work>, trace: seq<Event>, one: Invocation, other: Invocation)
    requires Overlap(Run(System(map[], pendingBefore), trace), one, other)
    ensures MayShare(one) && MayShare(other)
  {
    RunKeepsInvariant(System(map[], pendingBefore), trace);
  }

  /** The events of a shared command up to its body. */
  function Joining(pid: nat, invocation: Invocation): seq<Event> {
    [Start(pid, invocation), FirstCheck(pid, false), Acquire(pid), Recheck(pid)]
  }

  lemma JoiningRuns(start: System, trace: seq<Event>, pid: nat, invocation: Invocation)
    requires var s := Run(start, trace); pid !in s.processes && s.pending == {} && Grantable(s, pid, Shared)
    requires MayShare(invocation)
    ensures Run(start, trace + Joining(pid, invocation)) == With(Run(start, trace), pid, Body(invocation, Shared))
  {
    FourSteps(start, trace, Start(pid, invocation), FirstCheck(pid, false), Acquire(pid), Recheck(pid));
    Joins(Run(start, trace), pid, invocation);
  }

  /** The shared mode is one: two processes can be in their bodies at the same time. */
  lemma SharedBodiesOverlap(one: Invocation, other: Invocation)
    requires MayShare(one) && MayShare(other)
    ensures exists trace :: Overlap(Run(QUIET, trace), one, other)
  {
    JoiningRuns(QUIET, [], 0, one);
    var first := [] + Joining(0, one);
    JoiningRuns(QUIET, first, 1, other);
    var both := Run(QUIET, first + Joining(1, other));
    assert both.processes[0] == Body(one, Shared) && both.processes[1] == Body(other, Shared);
    assert Overlap(both, one, other);
  }

  /** Two bodies can be active at the same time if and only if neither is a managed restore nor one of these seven
      commands, each of which therefore excludes every other body. */
  lemma BodiesOverlapIff(one: Invocation, other: Invocation)
    ensures (exists pendingBefore, trace :: Overlap(Run(System(map[], pendingBefore), trace), one, other)) <==>
              && !one.liveIndependentRestore && !other.liveIndependentRestore
              && {one.command, other.command} !!
                   {"init", "lock", "unlock", "inherit", "passphrase", "backup", "rename"}
  {
    if pendingBefore, trace :| Overlap(Run(System(map[], pendingBefore), trace), one, other) {
      ExclusiveBodyIsAlone(pendingBefore, trace, one, other);
    }
    if MayShare(one) && MayShare(other) { SharedBodiesOverlap(one, other); }
  }

  /** A process that found pending work in its first check, and one that found some in its second, take the lock
      exclusively and recover before their bodies. */
  lemma FoundWorkIsRecovered(s: System, pid: nat)
    requires pid in s.processes && !s.processes[pid].invocation.liveIndependentRestore
    ensures var found := Next(s, FirstCheck(pid, true));
            s.processes[pid].phase == Checking ==>
              found.processes[pid].phase == Waiting(Exclusive) && found.processes[pid].held == s.processes[pid].held
    ensures var found := Next(s, Recheck(pid));
            s.processes[pid].phase == Rechecking && s.pending != {} ==>
              found.processes[pid].phase == Escalating && found.processes[pid].held == Nothing
    ensures var locked := Next(s, Acquire(pid));
            s.processes[pid].phase in {Waiting(Exclusive), Escalating} && Grantable(s, pid, Exclusive) ==>
              locked.processes[pid].phase == Recovering && locked.processes[pid].held == Holding(Exclusive)
  {
  }
}
