/**
 A process that may die, and may see exceptions, at any primitive.

 `fuel` is the number of primitives the process still performs before it dies. `faults` are its exceptions to come.
*/
module Crashes {
  datatype Status = Ok | Died | Threw

  /** The exceptions to come: `steps` primitives succeed before the next one throws. */
  datatype Faults = Quiet | Throws(steps: nat, rest: Faults)
  {
    function Count(): (count: nat)
      ensures count == 0 <==> Quiet?
    {
      if Quiet? then 0 else 1 + rest.Count()
    }
  }

  /** How one process will be cut. */
  datatype Cut = Cut(fuel: nat, faults: Faults)
  {
    /** The first `n` primitives succeed. */
    predicate Reaches(n: nat) {
      n <= fuel && (faults.Throws? ==> n <= faults.steps)
    }

    /** The process stops behind the `n`-th primitive and before the end of the `m`-th. */
    predicate StopsIn(n: nat, m: nat) {
      Reaches(n) && !Reaches(m)
    }

    /** What is left to come after `n` successful primitives. */
    function After(n: nat): Cut
      requires Reaches(n)
    {
      Cut(fuel - n, if faults.Quiet? then Quiet else faults.(steps := faults.steps - n))
    }
  }

  /** At most `bound` primitives lie between two cuts of one process, which died only when its fuel ran out. */
  predicate Uses(before: Cut, after: Cut, s: Status, bound: nat) {
    && after.fuel <= before.fuel <= after.fuel + bound
    && (s.Died? ==> after.fuel == 0)
    && after.faults.Count() <= before.faults.Count()
  }

  /** `n` primitives one after the other: all of them, or up to the one that throws or that there is no fuel for. */
  predicate Runs(before: Cut, after: Cut, s: Status, n: nat) {
    && Uses(before, after, s, n)
    && (if before.Reaches(n) then s.Ok? && after == before.After(n) else !s.Ok?)
    && (s.Threw? ==>
          && after.faults.Count() < before.faults.Count()
          && before.faults.steps < n && before.faults.steps < before.fuel)
  }

  /** Two runs, one after the other. */
  lemma RunsOn(first: Cut, second: Cut, third: Cut, s: Status, m: nat, n: nat)
    requires Runs(first, second, Ok, m) && Runs(second, third, s, n)
    ensures Runs(first, third, s, m + n)
  {
  }

  /** What a process reaches, and where it stops, counted from a later point. */
  lemma ReachesLater(first: Cut, k: nat, n: nat)
    requires first.Reaches(k)
    ensures first.Reaches(k + n) <==> first.After(k).Reaches(n)
  {
  }

  lemma StopsLater(first: Cut, k: nat, n: nat, m: nat)
    requires first.Reaches(k)
    ensures first.StopsIn(k + n, k + m) <==> first.After(k).StopsIn(n, m)
  {
  }

  /** A run that stopped is a run of anything longer that stopped. */
  lemma RunsShort(first: Cut, second: Cut, s: Status, m: nat, n: nat)
    requires Runs(first, second, s, m) && !s.Ok? && m <= n
    ensures Runs(first, second, s, n)
  {
  }

  class Fuse {
    var fuel: nat
    var faults: Faults

    function Left(): Cut
      reads this
    {
      Cut(fuel, faults)
    }

    /** The next `n` primitives succeed. */
    predicate Calm(n: nat)
      reads this
    {
      Left().Reaches(n)
    }

    /** Exactly `n` primitives succeeded. */
    twostate predicate Performed(n: nat)
      reads this
    {
      old(Calm(n)) && Left() == old(Left()).After(n)
    }

    /** `n` primitives one after the other. */
    twostate predicate Ran(s: Status, n: nat)
      reads this
    {
      Runs(old(Left()), Left(), s, n)
    }

    /** At most `bound` primitives were performed, and the process died only when its fuel ran out. */
    twostate predicate Used(s: Status, bound: nat)
      reads this
    {
      Uses(old(Left()), Left(), s, bound)
    }

    /** Besides, an exception is one that was due. */
    twostate predicate Spent(s: Status, bound: nat)
      reads this
    {
      Used(s, bound) && (s.Threw? ==> faults.Count() < old(faults).Count())
    }

    constructor (cut: Cut)
      ensures fuel == cut.fuel && faults == cut.faults
    {
      fuel, faults := cut.fuel, cut.faults;
    }

    /** A new process. */
    method Reset(cut: Cut)
      modifies this
      ensures fuel == cut.fuel && faults == cut.faults
    {
      fuel, faults := cut.fuel, cut.faults;
    }

    method Primitive() returns (s: Status)
      modifies this
      ensures Ran(s, 1)
      ensures s.Threw? <==> old(fuel > 0 && faults.Throws? && faults.steps == 0)
      ensures s.Threw? ==> fuel == old(fuel) && faults == old(faults).rest
    {
      if fuel == 0 { return Died; }
      if faults.Throws? && faults.steps == 0 {
        faults := faults.rest;
        return Threw;
      }
      fuel := fuel - 1;
      if faults.Throws? { faults := faults.(steps := faults.steps - 1); }
      return Ok;
    }
  }
}
