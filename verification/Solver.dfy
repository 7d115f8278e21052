/** The SAT/SMT solver the MaxSAT programs call, as an incremental store of assertions
    in front of an oracle.  The oracle sees how often it was asked before, so its answers
    may vary from call to call; nothing but their soundness is known. */
module Solver {
  import opened Prop

  datatype Answer = Sat(model: Assignment) | Unsat(core: seq<Form>)

  type Oracle = (nat, seq<Form>, seq<Form>) -> Answer

  ghost predicate Refutes(core: seq<Form>, asserted: seq<Form>) {
    forall a | Models(a, asserted) :: !Models(a, core)
  }

  ghost predicate Distinct(fs: seq<Form>) {
    forall i, j | 0 <= i < j < |fs| :: fs[i] != fs[j]
  }

  /** A model satisfies everything asked; a core is drawn from the assumptions and
      cannot be met together with the assertions. */
  ghost predicate Sound(ans: Answer, asserted: seq<Form>, assumptions: seq<Form>) {
    match ans
    case Sat(m) => Models(m, asserted) && Models(m, assumptions)
    case Unsat(core) =>
      && Distinct(core)
      && (forall c | c in core :: c in assumptions)
      && Refutes(core, asserted)
  }

  ghost predicate SoundOracle(o: Oracle) {
    forall n: nat, fs: seq<Form>, gs: seq<Form> :: Sound(o(n, fs, gs), fs, gs)
  }

  /** The members of a set, in some order. */
  method Listed(S: set<Form>) returns (fs: seq<Form>)
    ensures Distinct(fs) && forall f :: f in fs <==> f in S
  {
    fs := [];
    var rest := S;
    while rest != {}
      invariant rest <= S && Distinct(fs) && forall f :: f in fs <==> f in S && f !in rest
      decreases rest
    {
      var f :| f in rest;
      fs, rest := fs + [f], rest - {f};
    }
  }

  class Context {
    const oracle: Oracle
    var asserted: seq<Form>
    var calls: nat
    /** The next fresh variable; every formula in play is below it. */
    var next: nat

    ghost predicate Valid()
      reads this
    {
      SoundOracle(oracle) && AllBelow(asserted, next)
    }

    constructor (oracle: Oracle, next: nat)
      requires SoundOracle(oracle)
      ensures Valid() && this.oracle == oracle && asserted == [] && calls == 0 && this.next == next
    {
      this.oracle, asserted, calls, this.next := oracle, [], 0, next;
    }

    method Assert(f: Form)
      requires Valid() && Below(f, next)
      modifies this`asserted
      ensures Valid() && asserted == old(asserted) + [f]
    {
      asserted := asserted + [f];
    }

    method Check(assumptions: seq<Form>) returns (ans: Answer)
      requires Valid()
      modifies this`calls
      ensures Valid() && calls == old(calls) + 1
      ensures ans == oracle(old(calls), asserted, assumptions)
      ensures Sound(ans, asserted, assumptions)
    {
      ans := oracle(calls, asserted, assumptions);
      calls := calls + 1;
    }

    method FreshVar() returns (v: Form)
      requires Valid()
      modifies this`next
      ensures Valid() && v == Var(old(next)) && next == old(next) + 1
    {
      v := Var(next);
      AllBelowMono(asserted, next, next + 1);
      next := next + 1;
    }
  }
}
