/** The two MaxSAT procedures of maxsat.c: linear search with at-most-k constraints, and
    the core-guided procedure of Fu and Malik. */
module MaxSat {
  import opened Prop
  import opened Solver
  import opened Circuits

  function Falsified(soft: seq<Form>, a: Assignment): nat {
    |soft| - Count(soft, a)
  }

  /** The most soft constraints any model of the hard ones satisfies. */
  ghost predicate Optimum(hard: seq<Form>, soft: seq<Form>, v: nat) {
    && (exists a :: Models(a, hard) && Count(soft, a) == v)
    && forall a | Models(a, hard) :: Count(soft, a) <= v
  }

  datatype Outcome = HardUnsat | Best(value: nat) | Bug

  /** The number of soft constraints fits the C functions' int result. */
  const INT_LIMIT: nat := 0x8000_0000

  // ---------------------------------------------------------------- answer literals

  function Guarded(soft: seq<Form>, aux: seq<Form>): (r: seq<Form>)
    requires |soft| == |aux|
    ensures |r| == |soft|
  {
    if |soft| == 0 then []
    else
      var n := |soft| - 1;
      Guarded(soft[..n], aux[..n]) + [Or(soft[n], aux[n])]
  }

  /** count variables numbered from lo. */
  function Vars(lo: nat, count: nat): (r: seq<Form>)
    ensures |r| == count && forall i | 0 <= i < count :: r[i] == Var(lo + i)
  {
    seq(count, i requires 0 <= i < count => Var(lo + i))
  }

  lemma {:induction false} GuardedModels(soft: seq<Form>, aux: seq<Form>, a: Assignment)
    requires |soft| == |aux|
    ensures Models(a, Guarded(soft, aux)) <==> forall i | 0 <= i < |soft| :: Eval(soft[i], a) || Eval(aux[i], a)
  {
    if |soft| > 0 {
      var n := |soft| - 1;
      GuardedModels(soft[..n], aux[..n], a);
      var g, h := Guarded(soft[..n], aux[..n]), Or(soft[n], aux[n]);
      assert Models(a, g + [h]) <==> Models(a, g) && Eval(h, a) by { ModelsConcat(g, [h], a); ModelsOne(h, a); }
    }
  }

  lemma ModelsConcat(fs: seq<Form>, gs: seq<Form>, a: Assignment)
    ensures Models(a, fs + gs) <==> Models(a, fs) && Models(a, gs)
  {}

  lemma ModelsOne(f: Form, a: Assignment)
    ensures Models(a, [f]) <==> Eval(f, a)
  {
    assert f in [f];
  }

  /** Guarding falsified constraints only: the fewest answer literals a model can have. */
  lemma {:induction false} FalsifiedLeAux(soft: seq<Form>, aux: seq<Form>, a: Assignment)
    requires |soft| == |aux| && Models(a, Guarded(soft, aux))
    ensures Falsified(soft, a) <= Count(aux, a)
  {
    if |soft| > 0 {
      var n := |soft| - 1;
      GuardedModels(soft, aux, a);
      GuardedModels(soft[..n], aux[..n], a);
      FalsifiedLeAux(soft[..n], aux[..n], a);
    }
  }

  lemma {:induction false} ExactAux(soft: seq<Form>, aux: seq<Form>, a: Assignment)
    requires |soft| == |aux| && forall i | 0 <= i < |soft| :: Eval(aux[i], a) <==> !Eval(soft[i], a)
    ensures Models(a, Guarded(soft, aux)) && Count(aux, a) == Falsified(soft, a)
  {
    GuardedModels(soft, aux, a);
    if |soft| > 0 {
      ExactAux(soft[..|soft| - 1], aux[..|soft| - 1], a);
    }
  }

  /** A model of the input, extended to switch on the answer literals of what it falsifies. */
  lemma ExtendAux(hard: seq<Form>, soft: seq<Form>, lo: nat, a: Assignment) returns (b: Assignment)
    requires AllBelow(hard, lo) && AllBelow(soft, lo) && Models(a, hard)
    ensures Agree(a, b, lo) && Models(b, hard) && Count(soft, b) == Count(soft, a)
    ensures forall i | 0 <= i < |soft| :: Eval(Var(lo + i), b) <==> !Eval(soft[i], b)
  {
    b := (set v | v in a && v < lo) + (set i | 0 <= i < |soft| && !Eval(soft[i], a) :: lo + i);
    ModelsAgree(hard, a, b, lo);
    CountAgree(soft, a, b, lo);
    forall i | 0 <= i < |soft| ensures Eval(Var(lo + i), b) <==> !Eval(soft[i], b) {
      EvalAgree(soft[i], a, b, lo);
    }
  }

  method AssertHardConstraints(s: Context, hard: seq<Form>)
    requires s.Valid() && AllBelow(hard, s.next)
    modifies s`asserted
    ensures s.Valid() && s.asserted == old(s.asserted) + hard
  {
    for i := 0 to |hard|
      invariant s.Valid() && s.asserted == old(s.asserted) + hard[..i]
    {
      s.Assert(hard[i]);
    }
  }

  method AssertSoftConstraints(s: Context, soft: seq<Form>) returns (aux: seq<Form>)
    requires s.Valid() && AllBelow(soft, s.next)
    modifies s`asserted, s`next
    ensures s.Valid() && s.next == old(s.next) + |soft| && aux == Vars(old(s.next), |soft|)
    ensures s.asserted == old(s.asserted) + Guarded(soft, aux)
  {
    var lo := s.next;
    aux := [];
    for i := 0 to |soft|
      invariant s.Valid() && s.asserted == old(s.asserted) && s.next == lo + i && aux == Vars(lo, i)
    {
      var v := s.FreshVar();
      aux := aux + [v];
    }
    AllBelowMono(soft, lo, s.next);
    for i := 0 to |soft|
      invariant s.Valid() && s.next == lo + |soft|
      invariant s.asserted == old(s.asserted) + Guarded(soft[..i], aux[..i])
    {
      var g := Or(soft[i], aux[i]);
      assert Below(aux[i], s.next);
      assert soft[..i + 1][..i] == soft[..i] && aux[..i + 1][..i] == aux[..i];
      s.Assert(g);
    }
    assert soft[..|soft|] == soft && aux[..|soft|] == aux;
  }

  method GetNumDisabled(m: Assignment, aux: seq<Form>) returns (numDisabled: nat)
    ensures numDisabled == Count(aux, m)
  {
    numDisabled := 0;
    for i := 0 to |aux|
      invariant numDisabled == Count(aux[..i], m)
    {
      assert aux[..i + 1][..i] == aux[..i];
      if Eval(aux[i], m) {
        numDisabled := numDisabled + 1;
      }
    }
    assert aux[..|aux|] == aux;
  }

  // ---------------------------------------------------------------- linear search

  /** Any model of the input with few enough falsified constraints extends to one of all
      that the linear search has asserted. */
  ghost predicate Covers(asserted: seq<Form>, base: seq<Form>, aux: seq<Form>, k: int) {
    forall a | Models(a, base) && Count(aux, a) <= k :: Models(a, asserted)
  }

  /** Linear search returns the optimum, or that the hard constraints are unsatisfiable.
      With a single soft constraint its at-most-0 constraint is not asserted, and the run
      ends in the program's BUG exit exactly when the model it gets uses the answer literal. */
  method NaiveMaxsat(s: Context, hard: seq<Form>, soft: seq<Form>) returns (r: Outcome)
    requires s.Valid() && s.asserted == []
    requires AllBelow(hard, s.next) && AllBelow(soft, s.next) && |soft| < INT_LIMIT
    modifies s
    ensures r == HardUnsat <==> !Satisfiable(hard)
    ensures r.Best? ==> Optimum(hard, soft, r.value)
    ensures r == Bug ==> |soft| == 1
    ensures |soft| == 1 && Satisfiable(hard) ==>
      var lo := old(s.next);
      var ans := s.oracle(old(s.calls) + 1, hard + [Or(soft[0], Var(lo))], []);
      ans.Sat? && (r == Bug <==> lo in ans.model)
    ensures |soft| == 1 && Optimum(hard, soft, 0) ==> r == Bug
  {
    ghost var lo := s.next;
    AssertHardConstraints(s, hard);
    assert [] + hard == hard;
    var isSat := s.Check([]);
    if isSat.Unsat? {
      forall a ensures !Models(a, hard) { assert Models(a, isSat.core); }
      return HardUnsat;
    }
    ghost var best := isSat.model;
    assert Models(best, hard);
    if |soft| == 0 {
      return Best(0);
    }
    var aux := AssertSoftConstraints(s, soft);
    if |soft| == 1 {
      assert aux == [Var(lo)] && Guarded(soft, aux) == [Or(soft[0], Var(lo))];
      SingleSoft(hard, soft[0], lo, s.oracle(s.calls, s.asserted, []));
    }
    r := LinearSearch(s, hard, soft, aux, lo, best);
  }

  lemma SingleSoft(hard: seq<Form>, f: Form, lo: nat, ans: Answer)
    requires ans.Sat? ==> Models(ans.model, hard + [Or(f, Var(lo))])
    ensures ans.Sat? && Optimum(hard, [f], 0) ==> lo in ans.model
  {
    if ans.Sat? {
    ModelsConcat(hard, [Or(f, Var(lo))], ans.model);
    ModelsOne(Or(f, Var(lo)), ans.model);
    OneCount(f, ans.model);
    }
  }

  /** The search loop, from the answer literals aux on. */
  method LinearSearch(s: Context, ghost hard: seq<Form>, soft: seq<Form>, aux: seq<Form>, ghost lo: nat,
                      ghost some: Assignment)
    returns (r: Outcome)
    requires s.Valid() && s.next == lo + |soft| && 0 < |soft| < INT_LIMIT && aux == Vars(lo, |soft|)
    requires AllBelow(hard, lo) && AllBelow(soft, lo) && Models(some, hard)
    requires s.asserted == hard + Guarded(soft, aux)
    modifies s
    ensures r.Bug? || (r.Best? && Optimum(hard, soft, r.value))
    ensures r == Bug ==> |soft| == 1
    ensures |soft| == 1 ==>
      var ans := s.oracle(old(s.calls), old(s.asserted), []);
      ans.Sat? && Models(ans.model, old(s.asserted)) && (r == Bug <==> lo in ans.model)
  {
    var n := |soft|;
    var k := n - 1;
    ghost var best, base := some, s.asserted;
    assert base + [] == base;
    while true
      invariant 0 <= k < n && s.Valid() && s.next == lo + n && base <= s.asserted
      invariant Covers(s.asserted, base, aux, k)
      invariant Models(best, hard) && Falsified(soft, best) <= k + 1
      invariant n == 1 ==> s.asserted == base && s.calls == old(s.calls)
      decreases k
    {
      var isSat := TryBound(s, hard, soft, aux, k, lo, base);
      if isSat.Unsat? {
        return Best(n - k - 1);
      }
      best := isSat.model;
      var numDisabled := GetNumDisabled(isSat.model, aux);
      if n == 1 { OneCount(aux[0], best); assert aux == [aux[0]]; }
      if numDisabled > k {
        return Bug;
      }
      k := numDisabled;
      if k == 0 {
        return Best(n);
      }
      k := k - 1;
    }
  }

  /** One bound of the search. */
  method TryBound(s: Context, ghost hard: seq<Form>, ghost soft: seq<Form>, aux: seq<Form>, k: nat, ghost lo: nat,
                  ghost base: seq<Form>)
    returns (isSat: Answer)
    requires s.Valid() && s.next == lo + |soft| && 0 < |soft| < INT_LIMIT && aux == Vars(lo, |soft|) && k < |soft|
    requires AllBelow(hard, lo) && AllBelow(soft, lo)
    requires base == hard + Guarded(soft, aux) && base <= s.asserted && Covers(s.asserted, base, aux, k)
    requires |soft| == 1 ==> s.asserted == base
    modifies s`asserted, s`calls
    ensures s.Valid() && base <= s.asserted && s.asserted == old(s.asserted) + AtMostK(aux, k)
    ensures s.calls == old(s.calls) + 1 && isSat == s.oracle(old(s.calls), s.asserted, [])
    ensures isSat.Unsat? ==> forall a | Models(a, hard) :: |soft| != 1 && Falsified(soft, a) > k
    ensures isSat.Sat? ==>
      && Models(isSat.model, base) && Models(isSat.model, hard)
      && Falsified(soft, isSat.model) <= Count(aux, isSat.model)
      && (|soft| == 1 || Count(aux, isSat.model) <= k)
    ensures |soft| == 1 ==> s.asserted == base
    ensures Covers(s.asserted, base, aux, k)
  {
    ghost var before := s.asserted;
    AssertAtMostK(s, aux, k);
    assert before + [] == before;
    isSat := s.Check([]);
    if isSat.Unsat? {
      forall a | Models(a, hard) ensures |soft| != 1 && Falsified(soft, a) > k {
        WouldBeSat(hard, soft, lo, before, k, a, isSat.core);
      }
    } else {
      var m := isSat.model;
      ModelsConcat(before, AtMostK(aux, k), m);
      assert base == before[..|base|];
      ModelsConcat(hard, Guarded(soft, aux), m);
      FalsifiedLeAux(soft, aux, m);
      AtMostKExact(aux, k, m);
    }
    forall a | Models(a, base) && Count(aux, a) <= k ensures Models(a, s.asserted) {
      AtMostKExact(aux, k, a);
    }
  }

  lemma OneCount(f: Form, a: Assignment)
    ensures Count([f], a) == if Eval(f, a) then 1 else 0
  {
    assert Count([f][..0], a) == 0;
  }

  /** An unsatisfiable answer rules out every model of the input that the bound allows. */
  lemma WouldBeSat(hard: seq<Form>, soft: seq<Form>, lo: nat, before: seq<Form>, k: nat, a: Assignment, core: seq<Form>)
    requires AllBelow(hard, lo) && AllBelow(soft, lo) && 0 < |soft| < INT_LIMIT && Models(a, hard)
    requires Covers(before, hard + Guarded(soft, Vars(lo, |soft|)), Vars(lo, |soft|), k)
    requires Sound(Unsat(core), before + AtMostK(Vars(lo, |soft|), k), [])
    requires |soft| == 1 ==> before == hard + Guarded(soft, Vars(lo, |soft|))
    ensures |soft| > 1 && Falsified(soft, a) > k
  {
    var aux := Vars(lo, |soft|);
    var b := ExtendAux(hard, soft, lo, a);
    ExactAux(soft, aux, b);
    ModelsConcat(hard, Guarded(soft, aux), b);
    if |soft| == 1 || Falsified(soft, a) <= k {
      AtMostKExact(aux, k, b);
      assert Models(b, before + AtMostK(aux, k));
      assert Models(b, core);
      assert false;
    }
  }

  // ---------------------------------------------------------------- Fu and Malik

  /** The input: hard and soft constraints over variables below n0. */
  datatype Input = Input(hard: seq<Form>, soft: seq<Form>, n0: nat)

  /** The problem after some relaxations: everything asserted, and the present soft
      constraints with their answer literals. */
  datatype Current = Current(asserted: seq<Form>, soft: seq<Form>, aux: seq<Form>)

  ghost predicate AuxExact(soft: seq<Form>, aux: seq<Form>, a: Assignment) {
    && |soft| == |aux|
    && forall i | 0 <= i < |soft| :: Eval(aux[i], a) <==> !Eval(soft[i], a)
  }

  /** Every model of what is asserted falsifies at most k original constraints more than
      current ones. */
  ghost predicate CostAtMost(p: Input, q: Current, k: nat) {
    forall a {:trigger Pays(p, q, k, a)} | Models(a, q.asserted) :: Pays(p, q, k, a)
  }

  ghost predicate Pays(p: Input, q: Current, k: nat, a: Assignment) {
    Models(a, p.hard) && Falsified(p.soft, a) <= k + Falsified(q.soft, a)
  }

  /** b is a model of the current problem that behaves like a on the input and falsifies
      exactly k current constraints fewer than a does original ones. */
  ghost predicate Cheaper(p: Input, q: Current, k: nat, a: Assignment, b: Assignment) {
    && Agree(a, b, p.n0) && Models(b, q.asserted) && AuxExact(q.soft, q.aux, b)
    && Falsified(p.soft, a) == k + Falsified(q.soft, b)
  }

  /** Every model of the hard constraints has such an extension. */
  ghost predicate CostAtLeast(p: Input, q: Current, k: nat) {
    forall a {:trigger Extends(p, q, k, a)} | Models(a, p.hard) :: Extends(p, q, k, a)
  }

  ghost predicate Extends(p: Input, q: Current, k: nat, a: Assignment) {
    exists b :: Cheaper(p, q, k, a, b)
  }

  ghost predicate AllGuarded(q: Current) {
    && |q.soft| == |q.aux|
    && forall i | 0 <= i < |q.soft| :: Or(q.soft[i], q.aux[i]) in q.asserted
  }

  /** The conservation law after k unsatisfiable steps. */
  ghost predicate Conserves(p: Input, q: Current, k: nat) {
    |q.soft| == |p.soft| && AllGuarded(q) && CostAtMost(p, q, k) && CostAtLeast(p, q, k)
  }

  ghost predicate MinFalsified(hard: seq<Form>, soft: seq<Form>, v: nat) {
    && (exists a :: Models(a, hard) && Falsified(soft, a) == v)
    && forall a | Models(a, hard) :: Falsified(soft, a) >= v
  }

  /** The law pins the minimum number of falsified constraints: each further unit of k
      lowers the current minimum by exactly one. */
  lemma ConservedMinimum(p: Input, q: Current, k: nat, v: nat)
    requires Conserves(p, q, k)
    ensures MinFalsified(q.asserted, q.soft, v) <==> MinFalsified(p.hard, p.soft, v + k)
  {
    if MinFalsified(q.asserted, q.soft, v) {
      forall a | Models(a, p.hard) ensures Falsified(p.soft, a) >= v + k {
        assert Extends(p, q, k, a);
        var b :| Cheaper(p, q, k, a, b);
      }
      var m :| Models(m, q.asserted) && Falsified(q.soft, m) == v;
      assert Pays(p, q, k, m);
    }
    if MinFalsified(p.hard, p.soft, v + k) {
      var a :| Models(a, p.hard) && Falsified(p.soft, a) == v + k;
      assert Extends(p, q, k, a);
      var b :| Cheaper(p, q, k, a, b);
      assert Models(b, q.asserted) && Falsified(q.soft, b) == v;
      forall c | Models(c, q.asserted) ensures Falsified(q.soft, c) >= v { assert Pays(p, q, k, c); }
    }
  }

  /** One relaxation: the constraints of the core get blocking variables at[i] and new
      answer literals at[i] + 1, all fresh. */
  ghost predicate Relaxed(soft: seq<Form>, aux: seq<Form>, soft': seq<Form>, aux': seq<Form>,
                          inCore: seq<bool>, at: seq<nat>, lo: nat, hi: nat) {
    && |soft| == |aux| == |soft'| == |aux'| && |inCore| == |at| <= |soft|
    && (forall i | 0 <= i < |soft| ::
          if i < |at| && inCore[i] then
            soft'[i] == Or(soft[i], Var(at[i])) && aux'[i] == Var(at[i] + 1) && lo <= at[i] && at[i] + 2 <= hi
          else soft'[i] == soft[i] && aux'[i] == aux[i])
    && (forall i, j | 0 <= i < j < |at| && inCore[i] && inCore[j] :: at[i] + 2 <= at[j])
  }

  function Blocks(inCore: seq<bool>, at: seq<nat>): (bs: seq<Form>)
    requires |inCore| == |at|
    ensures |bs| <= |at|
  {
    if |at| == 0 then []
    else
      var n := |at| - 1;
      Blocks(inCore[..n], at[..n]) + if inCore[n] then [Var(at[n])] else []
  }

  function Clauses(inCore: seq<bool>, soft: seq<Form>, aux: seq<Form>): seq<Form>
    requires |inCore| <= |soft| == |aux|
  {
    if |inCore| == 0 then []
    else
      var n := |inCore| - 1;
      Clauses(inCore[..n], soft, aux) + if inCore[n] then [Or(soft[n], aux[n])] else []
  }

  /** What a relaxation asserts on top. */
  function Relaxation(inCore: seq<bool>, at: seq<nat>, soft: seq<Form>, aux: seq<Form>): seq<Form>
    requires |inCore| == |at| <= |soft| == |aux|
  {
    Clauses(inCore, soft, aux) + AtMostK(Blocks(inCore, at), 1)
  }

  lemma {:induction false} ClausesModels(inCore: seq<bool>, soft: seq<Form>, aux: seq<Form>, a: Assignment)
    requires |inCore| <= |soft| == |aux|
    ensures Models(a, Clauses(inCore, soft, aux)) <==>
            forall i | 0 <= i < |inCore| && inCore[i] :: Eval(soft[i], a) || Eval(aux[i], a)
  {
    if |inCore| > 0 {
      var n := |inCore| - 1;
      ClausesModels(inCore[..n], soft, aux, a);
      var h := Or(soft[n], aux[n]);
      ModelsConcat(Clauses(inCore[..n], soft, aux), [h], a);
      ModelsOne(h, a);
    }
  }

  lemma {:induction false} ClausesHave(inCore: seq<bool>, soft: seq<Form>, aux: seq<Form>, i: nat)
    requires |inCore| <= |soft| == |aux| && i < |inCore| && inCore[i]
    ensures Or(soft[i], aux[i]) in Clauses(inCore, soft, aux)
  {
    if i < |inCore| - 1 { ClausesHave(inCore[..|inCore| - 1], soft, aux, i); }
  }

  lemma {:induction false} ClausesStable(inCore: seq<bool>, soft: seq<Form>, aux: seq<Form>, soft': seq<Form>,
                                         aux': seq<Form>)
    requires |inCore| <= |soft| == |aux| && |soft'| == |aux'| == |soft|
    requires forall i | 0 <= i < |inCore| :: soft'[i] == soft[i] && aux'[i] == aux[i]
    ensures Clauses(inCore, soft, aux) == Clauses(inCore, soft', aux')
  {
    if |inCore| > 0 { ClausesStable(inCore[..|inCore| - 1], soft, aux, soft', aux'); }
  }

  /** The blocking variables, padded to one per constraint. */
  function Padded(inCore: seq<bool>, at: seq<nat>): (bs: seq<Form>)
    requires |inCore| == |at|
    ensures |bs| == |at|
  {
    seq(|at|, i requires 0 <= i < |at| => if inCore[i] then Var(at[i]) else Bot)
  }

  lemma {:induction false} PaddedCount(inCore: seq<bool>, at: seq<nat>, a: Assignment)
    requires |inCore| == |at|
    ensures Count(Blocks(inCore, at), a) == Count(Padded(inCore, at), a)
  {
    if |at| > 0 {
      var n := |at| - 1;
      PaddedCount(inCore[..n], at[..n], a);
      var bs := Blocks(inCore[..n], at[..n]);
      assert Padded(inCore, at)[..n] == Padded(inCore[..n], at[..n]);
      if inCore[n] {
        CountConcat(bs, [Var(at[n])], a);
        OneCount(Var(at[n]), a);
      } else {
        assert bs + [] == bs;
      }
    }
  }

  /** If at most one is true, all but some one are false. */
  lemma {:induction false} AllButOne(fs: seq<Form>, a: Assignment) returns (j: nat)
    requires |fs| > 0 && Count(fs, a) <= 1
    ensures j < |fs| && forall i | 0 <= i < |fs| && i != j :: !Eval(fs[i], a)
  {
    var n := |fs| - 1;
    if Eval(fs[n], a) {
      CountNone(fs[..n], a);
      j := n;
    } else if n > 0 {
      j := AllButOne(fs[..n], a);
    } else {
      j := 0;
    }
  }

  lemma {:induction false} OnlyOne(fs: seq<Form>, a: Assignment, j: nat)
    requires j < |fs| && forall i | 0 <= i < |fs| && i != j :: !Eval(fs[i], a)
    ensures Count(fs, a) <= 1
  {
    var n := |fs| - 1;
    if j == n { CountNone(fs[..n], a); } else { OnlyOne(fs[..n], a, j); }
  }

  /** A model of the relaxed problem pays back at most the one blocked constraint. */
  lemma RelaxLower(p: Input, q: Current, k: nat, q': Current, inCore: seq<bool>, at: seq<nat>, lo: nat, hi: nat)
    requires CostAtMost(p, q, k) && |q.soft| == |p.soft| && 0 < |q.soft| < INT_LIMIT && |at| == |q.soft|
    requires Relaxed(q.soft, q.aux, q'.soft, q'.aux, inCore, at, lo, hi)
    requires q'.asserted == q.asserted + Relaxation(inCore, at, q'.soft, q'.aux)
    ensures CostAtMost(p, q', k + 1)
  {
    forall a | Models(a, q'.asserted) ensures Pays(p, q', k + 1, a) {
      ModelsConcat(q.asserted, Relaxation(inCore, at, q'.soft, q'.aux), a);
      ModelsConcat(Clauses(inCore, q'.soft, q'.aux), AtMostK(Blocks(inCore, at), 1), a);
      AtMostKExact(Blocks(inCore, at), 1, a);
      PaddedCount(inCore, at, a);
      var j := AllButOne(Padded(inCore, at), a);
      forall i | 0 <= i < |q.soft| && i != j ensures Eval(q'.soft[i], a) ==> Eval(q.soft[i], a) {
        assert !Eval(Padded(inCore, at)[i], a);
      }
      assert Pays(p, q, k, a);
      CountLeButOne(q'.soft, a, q.soft, a, j);
    }
  }

  /** b with the fresh variables of a relaxation set to block constraint j. */
  ghost function Blocking(b: Assignment, lo: nat, soft: seq<Form>, inCore: seq<bool>, at: seq<nat>, j: nat): Assignment
    requires |soft| == |inCore| == |at| && j < |soft|
  {
    (set v | v in b && v < lo) + {at[j]} +
    (set i | 0 <= i < |soft| && inCore[i] && i != j && !Eval(soft[i], b) :: at[i] + 1)
  }

  lemma BlockingFresh(q: Current, q': Current, inCore: seq<bool>, at: seq<nat>, lo: nat, hi: nat, b: Assignment,
                      j: nat, i: nat)
    requires Relaxed(q.soft, q.aux, q'.soft, q'.aux, inCore, at, lo, hi) && |at| == |q.soft|
    requires i < |at| && j < |at| && inCore[i] && inCore[j]
    ensures at[i] in Blocking(b, lo, q.soft, inCore, at, j) <==> i == j
    ensures at[i] + 1 in Blocking(b, lo, q.soft, inCore, at, j) <==> i != j && !Eval(q.soft[i], b)
  {
    forall m | 0 <= m < |at| && inCore[m]
      ensures at[i] != at[m] + 1 && (at[i] == at[m] <==> i == m)
    {
      if i < m { assert at[i] + 2 <= at[m]; }
      if m < i { assert at[m] + 2 <= at[i]; }
    }
  }

  /** Blocking j leaves every other constraint as it was, with exact answer literals. */
  lemma BlockingEval(q: Current, q': Current, inCore: seq<bool>, at: seq<nat>, lo: nat, hi: nat, b: Assignment,
                     j: nat, i: nat)
    requires AllBelow(q.soft, lo) && AllBelow(q.aux, lo) && AuxExact(q.soft, q.aux, b)
    requires Relaxed(q.soft, q.aux, q'.soft, q'.aux, inCore, at, lo, hi) && |at| == |q.soft|
    requires i < |at| && j < |at| && inCore[j] && !Eval(q.soft[j], b)
    ensures var c := Blocking(b, lo, q.soft, inCore, at, j);
      && (Eval(q'.soft[i], c) <==> i == j || Eval(q.soft[i], b))
      && (Eval(q'.aux[i], c) <==> !Eval(q'.soft[i], c))
      && (Eval(Padded(inCore, at)[i], c) ==> i == j)
  {
    var c := Blocking(b, lo, q.soft, inCore, at, j);
    BlockingAgrees(q.soft, inCore, at, lo, b, j);
    EvalAgree(q.soft[i], b, c, lo);
    EvalAgree(q.aux[i], b, c, lo);
    if inCore[i] { BlockingFresh(q, q', inCore, at, lo, hi, b, j, i); }
  }

  lemma BlockingAgrees(soft: seq<Form>, inCore: seq<bool>, at: seq<nat>, lo: nat, b: Assignment, j: nat)
    requires |soft| == |inCore| == |at| && j < |soft| && inCore[j]
    requires forall i | 0 <= i < |at| && inCore[i] :: lo <= at[i]
    ensures Agree(b, Blocking(b, lo, soft, inCore, at, j), lo)
  {}

  /** A model of the unrelaxed problem that falsifies constraint j of the core becomes a
      model of the relaxed one by blocking it. */
  lemma RelaxUpper(p: Input, q: Current, k: nat, q': Current, inCore: seq<bool>, at: seq<nat>, lo: nat, hi: nat,
                   a: Assignment, b: Assignment, j: nat)
    returns (c: Assignment)
    requires Cheaper(p, q, k, a, b) && p.n0 <= lo && |q.soft| < INT_LIMIT && |at| == |q.soft|
    requires AllBelow(q.asserted, lo) && AllBelow(q.soft, lo) && AllBelow(q.aux, lo)
    requires Relaxed(q.soft, q.aux, q'.soft, q'.aux, inCore, at, lo, hi)
    requires q'.asserted == q.asserted + Relaxation(inCore, at, q'.soft, q'.aux)
    requires j < |q.soft| && inCore[j] && !Eval(q.soft[j], b)
    ensures Cheaper(p, q', k + 1, a, c)
  {
    c := Blocking(b, lo, q.soft, inCore, at, j);
    BlockingAgrees(q.soft, inCore, at, lo, b, j);
    forall i | 0 <= i < |q.soft|
      ensures Eval(q'.soft[i], c) <==> i == j || Eval(q.soft[i], b)
      ensures Eval(q'.aux[i], c) <==> !Eval(q'.soft[i], c)
      ensures Eval(Padded(inCore, at)[i], c) ==> i == j
    {
      BlockingEval(q, q', inCore, at, lo, hi, b, j, i);
    }
    OneFewer(q.soft, b, q'.soft, c, j);
    RelaxationHolds(q', inCore, at, c, j);
    ModelsAgree(q.asserted, b, c, lo);
    ModelsConcat(q.asserted, Relaxation(inCore, at, q'.soft, q'.aux), c);
  }

  lemma RelaxationHolds(q': Current, inCore: seq<bool>, at: seq<nat>, c: Assignment, j: nat)
    requires |inCore| == |at| == |q'.soft| < INT_LIMIT && j < |at| && AuxExact(q'.soft, q'.aux, c)
    requires forall i | 0 <= i < |at| && i != j :: !Eval(Padded(inCore, at)[i], c)
    ensures Models(c, Relaxation(inCore, at, q'.soft, q'.aux))
  {
    OnlyOne(Padded(inCore, at), c, j);
    PaddedCount(inCore, at, c);
    AtMostKExact(Blocks(inCore, at), 1, c);
    ClausesModels(inCore, q'.soft, q'.aux, c);
    ModelsConcat(Clauses(inCore, q'.soft, q'.aux), AtMostK(Blocks(inCore, at), 1), c);
  }

  lemma {:induction false} OneFewer(soft: seq<Form>, b: Assignment, soft': seq<Form>, c: Assignment, j: nat)
    requires |soft| == |soft'| && j < |soft| && !Eval(soft[j], b)
    requires forall i | 0 <= i < |soft| :: Eval(soft'[i], c) <==> i == j || Eval(soft[i], b)
    ensures Falsified(soft, b) == Falsified(soft', c) + 1
  {
    var n := |soft| - 1;
    if j == n {
      CountLe(soft[..n], b, soft'[..n], c);
      CountLe(soft'[..n], c, soft[..n], b);
    } else {
      OneFewer(soft[..n], b, soft'[..n], c, j);
    }
  }

  /** Some constraint of a core is falsified wherever answer literals are exact. */
  lemma CoreHitsFalsified(q: Current, assumptions: seq<Form>, core: seq<Form>, b: Assignment) returns (j: nat)
    requires Models(b, q.asserted) && AuxExact(q.soft, q.aux, b) && |assumptions| == |q.aux|
    requires forall i | 0 <= i < |q.aux| :: assumptions[i] == Not(q.aux[i])
    requires Sound(Unsat(core), q.asserted, assumptions)
    ensures j < |q.soft| && assumptions[j] in core && !Eval(q.soft[j], b)
  {
    assert !Models(b, core);
    var c :| c in core && !Eval(c, b);
    j :| 0 <= j < |assumptions| && assumptions[j] == c;
  }

  /** Relaxing any core, minimal or not, keeps the conservation law for one more unit. */
  lemma RelaxConserves(p: Input, q: Current, k: nat, q': Current, inCore: seq<bool>, at: seq<nat>, lo: nat, hi: nat,
                       assumptions: seq<Form>, core: seq<Form>)
    requires Conserves(p, q, k) && p.n0 <= lo && 0 < |q.soft| < INT_LIMIT && |at| == |q.soft|
    requires AllBelow(q.asserted, lo) && AllBelow(q.soft, lo) && AllBelow(q.aux, lo)
    requires |assumptions| == |q.aux| && forall i | 0 <= i < |q.aux| :: assumptions[i] == Not(q.aux[i])
    requires Sound(Unsat(core), q.asserted, assumptions)
    requires Relaxed(q.soft, q.aux, q'.soft, q'.aux, inCore, at, lo, hi)
    requires forall i | 0 <= i < |at| :: inCore[i] <==> assumptions[i] in core
    requires q'.asserted == q.asserted + Relaxation(inCore, at, q'.soft, q'.aux)
    ensures Conserves(p, q', k + 1)
  {
    RelaxLower(p, q, k, q', inCore, at, lo, hi);
    var k' := k + 1;
    forall a | Models(a, p.hard) ensures Extends(p, q', k', a) {
      assert Extends(p, q, k, a);
      var b :| Cheaper(p, q, k, a, b);
      var j := CoreHitsFalsified(q, assumptions, core, b);
      var c := RelaxUpper(p, q, k, q', inCore, at, lo, hi, a, b, j);
    }
    forall i | 0 <= i < |q'.soft| ensures Or(q'.soft[i], q'.aux[i]) in q'.asserted {
      if inCore[i] { ClausesHave(inCore, q'.soft, q'.aux, i); }
    }
  }

  /** A relaxation under way: the problem so far, the next fresh variable, the blocking
      variables, and which of the first |at| constraints were in the core. */
  datatype Partial = Partial(now: Current, next: nat, blocks: seq<Form>, inCore: seq<bool>, at: seq<nat>)

  ghost predicate Progress(q: Current, r: Partial, lo: nat) {
    && lo <= r.next && Relaxed(q.soft, q.aux, r.now.soft, r.now.aux, r.inCore, r.at, lo, r.next)
    && AllBelow(r.now.soft, r.next) && AllBelow(r.now.aux, r.next) && BlocksOk(r) && AssertsOk(q, r)
  }

  ghost predicate BlocksOk(r: Partial) {
    |r.inCore| == |r.at| && AllBelow(r.blocks, r.next) && r.blocks == Blocks(r.inCore, r.at)
  }

  ghost predicate AssertsOk(q: Current, r: Partial) {
    |r.inCore| <= |r.now.soft| == |r.now.aux| && r.now.asserted == q.asserted + Clauses(r.inCore, r.now.soft, r.now.aux)
  }

  function Skip(r: Partial): Partial {
    r.(inCore := r.inCore + [false], at := r.at + [r.next])
  }

  /** The next constraint relaxed with the fresh variables next and next + 1. */
  function Relax(r: Partial): Partial
    requires |r.at| < |r.now.soft| == |r.now.aux|
  {
    var i, block, v := |r.at|, Var(r.next), Var(r.next + 1);
    var f := Or(r.now.soft[i], block);
    var now := Current(r.now.asserted + [Or(f, v)], r.now.soft[i := f], r.now.aux[i := v]);
    Partial(now, r.next + 2, r.blocks + [block], r.inCore + [true], r.at + [r.next])
  }

  lemma StartProgress(q: Current, lo: nat)
    requires AllBelow(q.soft, lo) && AllBelow(q.aux, lo) && |q.soft| == |q.aux|
    ensures Progress(q, Partial(q, lo, [], [], []), lo)
  {
    assert q.asserted + [] == q.asserted;
  }

  lemma SkipProgress(q: Current, r: Partial, lo: nat)
    requires Progress(q, r, lo) == true && |r.at| < |q.soft|
    ensures Progress(q, Skip(r), lo)
  {
    var i := |r.at|;
    assert Skip(r).inCore[..i] == r.inCore && Skip(r).at[..i] == r.at;
    assert r.blocks + [] == r.blocks;
    var cs := Clauses(r.inCore, r.now.soft, r.now.aux);
    assert cs + [] == cs;
  }

  lemma RelaxBelow(r: Partial)
    requires |r.at| < |r.now.soft| == |r.now.aux|
    requires AllBelow(r.now.soft, r.next) && AllBelow(r.now.aux, r.next)
    ensures AllBelow(Relax(r).now.soft, r.next + 2) && AllBelow(Relax(r).now.aux, r.next + 2)
    ensures Below(Or(Relax(r).now.soft[|r.at|], Var(r.next + 1)), r.next + 2)
  {
    AllBelowMono(r.now.soft, r.next, r.next + 2);
    AllBelowMono(r.now.aux, r.next, r.next + 2);
    assert Below(Var(r.next), r.next + 2) && Below(Relax(r).now.soft[|r.at|], r.next + 2);
  }

  lemma RelaxRelaxed(q: Current, r: Partial, lo: nat)
    requires lo <= r.next && |r.at| < |q.soft|
    requires Relaxed(q.soft, q.aux, r.now.soft, r.now.aux, r.inCore, r.at, lo, r.next)
    ensures var r' := Relax(r); Relaxed(q.soft, q.aux, r'.now.soft, r'.now.aux, r'.inCore, r'.at, lo, r'.next)
  {}

  lemma RelaxAsserts(q: Current, r: Partial)
    requires |r.at| == |r.inCore| < |r.now.soft| == |r.now.aux| && AssertsOk(q, r)
    ensures AssertsOk(q, Relax(r)) == true
  {
    var r' := Relax(r);
    assert r'.inCore[..|r.at|] == r.inCore;
    ClausesStable(r.inCore, r.now.soft, r.now.aux, r'.now.soft, r'.now.aux);
  }

  lemma RelaxProgress(q: Current, r: Partial, lo: nat)
    requires Progress(q, r, lo) == true && |r.at| < |q.soft|
    ensures Progress(q, Relax(r), lo) == true
  {
    RelaxBelow(r);
    RelaxBlocks(r);
    RelaxRelaxed(q, r, lo);
    RelaxAsserts(q, r);
  }

  lemma RelaxBlocks(r: Partial)
    requires |r.at| == |r.inCore| < |r.now.soft| == |r.now.aux| && BlocksOk(r)
    ensures BlocksOk(Relax(r)) == true
  {
    var i, r' := |r.at|, Relax(r);
    assert r'.inCore[..i] == r.inCore && r'.at[..i] == r.at;
    AllBelowMono(r.blocks, r.next, r.next + 2);
  }

  /** Relaxes constraint i, which is in the core. */
  method RelaxConstraint(s: Context, soft: array<Form>, aux: array<Form>, i: nat,
                         ghost r: Partial) returns (blockVar: Form)
    requires s.Valid() && soft != aux && i < soft.Length == aux.Length && |r.at| == i
    requires r.now == Current(s.asserted, soft[..], aux[..]) && r.next == s.next
    requires AllBelow(soft[..], s.next) && AllBelow(aux[..], s.next)
    modifies s`asserted, s`next, soft, aux
    ensures s.Valid() && s.next == Relax(r).next && s.asserted == Relax(r).now.asserted
    ensures soft[..] == Relax(r).now.soft && aux[..] == Relax(r).now.aux
    ensures r.blocks + [blockVar] == Relax(r).blocks
  {
    RelaxBelow(r);
    blockVar := s.FreshVar();
    var newAuxVar := s.FreshVar();
    soft[i] := Or(soft[i], blockVar);
    aux[i] := newAuxVar;
    s.Assert(Or(soft[i], newAuxVar));
  }

  /** One step.  If the soft constraints can all be met it stops; if not, the relaxed
      problem satisfies the conservation law for one more unit. */
  method FuMalikStep(s: Context, soft: array<Form>, aux: array<Form>, ghost p: Input, ghost k: nat) returns (done: bool)
    requires s.Valid() && soft != aux && 0 < soft.Length == aux.Length < INT_LIMIT
    requires p.n0 <= s.next && AllBelow(soft[..], s.next) && AllBelow(aux[..], s.next)
    requires Conserves(p, Current(s.asserted, soft[..], aux[..]), k)
    modifies s, soft, aux
    ensures s.Valid() && AllBelow(soft[..], s.next) && AllBelow(aux[..], s.next) && p.n0 <= s.next
    ensures done ==> s.asserted == old(s.asserted) && soft[..] == old(soft[..]) && aux[..] == old(aux[..])
    ensures done ==> MinFalsified(s.asserted, soft[..], 0)
    ensures !done ==> Conserves(p, Current(s.asserted, soft[..], aux[..]), k + 1) == true
    ensures !done ==> old(s.asserted) <= s.asserted
    ensures s.calls == old(s.calls) + 1
  {
    var n := soft.Length;
    ghost var q, lo := Current(s.asserted, soft[..], aux[..]), s.next;
    var assumptions := [];
    for i := 0 to n
      invariant |assumptions| == i && s.Valid() && s.asserted == q.asserted && s.next == lo
      invariant forall j | 0 <= j < i :: assumptions[j] == Not(aux[j])
    {
      assumptions := assumptions + [Not(aux[i])];
    }
    var isSat := s.Check(assumptions);
    if isSat.Sat? {
      AllMet(q, assumptions, isSat.model);
      return true;
    }
    var blockVars := RelaxCore(s, soft, aux, assumptions, isSat.core, q, p, k);
    return false;
  }

  method IndexIn(core: seq<Form>, f: Form) returns (j: nat)
    ensures j < |core| <==> f in core
  {
    j := 0;
    while j < |core| && f != core[j]
      invariant 0 <= j <= |core| && forall m | 0 <= m < j :: f != core[m]
    {
      j := j + 1;
    }
  }

  /** The unsatisfiable half of a step, for any core. */
  method RelaxCore(s: Context, soft: array<Form>, aux: array<Form>, assumptions: seq<Form>, core: seq<Form>,
                   ghost q: Current, ghost p: Input, ghost k: nat) returns (blockVars: seq<Form>)
    requires s.Valid() && soft != aux && 0 < soft.Length == aux.Length < INT_LIMIT
    requires p.n0 <= s.next && AllBelow(soft[..], s.next) && AllBelow(aux[..], s.next)
    requires q == Current(s.asserted, soft[..], aux[..]) && Conserves(p, q, k)
    requires |assumptions| == |q.aux| && forall i | 0 <= i < |q.aux| :: assumptions[i] == Not(q.aux[i])
    requires Sound(Unsat(core), q.asserted, assumptions)
    modifies s, soft, aux
    ensures s.Valid() && AllBelow(soft[..], s.next) && AllBelow(aux[..], s.next) && p.n0 <= s.next
    ensures Conserves(p, Current(s.asserted, soft[..], aux[..]), k + 1) == true
    ensures q.asserted <= s.asserted && s.calls == old(s.calls)
  {
    ghost var lo := s.next;
    ghost var r;
    blockVars, r := RelaxEach(s, soft, aux, assumptions, core, q);
    AssertAtMostK(s, blockVars, 1);
    ghost var q' := r.now.(asserted := s.asserted);
    assert q'.asserted == q.asserted + Relaxation(r.inCore, r.at, q'.soft, q'.aux);
    RelaxConserves(p, q, k, q', r.inCore, r.at, lo, s.next, assumptions, core);
  }

  /** The loop over the soft constraints. */
  method RelaxEach(s: Context, soft: array<Form>, aux: array<Form>, assumptions: seq<Form>, core: seq<Form>,
                   ghost q: Current)
    returns (blockVars: seq<Form>, ghost r: Partial)
    requires s.Valid() && soft != aux && soft.Length == aux.Length == |assumptions|
    requires AllBelow(soft[..], s.next) && AllBelow(aux[..], s.next)
    requires q == Current(s.asserted, soft[..], aux[..])
    modifies s`asserted, s`next, soft, aux
    ensures s.Valid() && |r.at| == soft.Length && Progress(q, r, old(s.next)) == true
    ensures r.now == Current(s.asserted, soft[..], aux[..]) && r.next == s.next && r.blocks == blockVars
    ensures forall j | 0 <= j < |r.at| :: r.inCore[j] <==> assumptions[j] in core
  {
    var n := soft.Length;
    ghost var lo := s.next;
    r := Partial(q, lo, [], [], []);
    blockVars := [];
    var i := 0;
    StartProgress(q, lo);
    while i < n
      invariant 0 <= i <= n && |r.at| == i && s.Valid()
      invariant r.now == Current(s.asserted, soft[..], aux[..]) && r.next == s.next && r.blocks == blockVars
      invariant Progress(q, r, lo) == true
      invariant forall j | 0 <= j < i :: r.inCore[j] <==> assumptions[j] in core
    {
      var j := IndexIn(core, assumptions[i]);
      if j < |core| {
        RelaxProgress(q, r, lo);
        var blockVar := RelaxConstraint(s, soft, aux, i, r);
        blockVars := blockVars + [blockVar];
        r := Relax(r);
      } else {
        SkipProgress(q, r, lo);
        r := Skip(r);
      }
      i := i + 1;
    }
  }

  lemma AllMet(q: Current, assumptions: seq<Form>, m: Assignment)
    requires AllGuarded(q) && Models(m, q.asserted) && Models(m, assumptions) && |assumptions| == |q.aux|
    requires forall i | 0 <= i < |q.aux| :: assumptions[i] == Not(q.aux[i])
    ensures MinFalsified(q.asserted, q.soft, 0)
  {
    forall i | 0 <= i < |q.soft| ensures Eval(q.soft[i], m) {
      assert assumptions[i] in assumptions && Or(q.soft[i], q.aux[i]) in q.asserted;
      assert Eval(Not(q.aux[i]), m) && Eval(Or(q.soft[i], q.aux[i]), m);
    }
    CountAll(q.soft, m);
    assert Models(m, q.asserted) && Falsified(q.soft, m) == 0;
  }

  lemma HardChecked(hard: seq<Form>, ans: Answer)
    requires Sound(ans, hard, [])
    ensures ans.Unsat? ==> !Satisfiable(hard)
    ensures ans.Sat? ==> Satisfiable(hard) && Models(ans.model, hard) == true
  {
    if ans.Unsat? {
      forall a ensures !Models(a, hard) { assert Models(a, ans.core); }
    }
  }

  /** Fu and Malik's procedure returns the optimum, or that the hard constraints are
      unsatisfiable.  It asks the solver once for the hard constraints, once for every
      constraint that cannot be met, and once more. */
  method FuMalikMaxsat(s: Context, hard: seq<Form>, soft: array<Form>) returns (r: Outcome)
    requires s.Valid() && s.asserted == []
    requires AllBelow(hard, s.next) && AllBelow(soft[..], s.next) && soft.Length < INT_LIMIT
    modifies s, soft
    ensures r == HardUnsat <==> !Satisfiable(hard)
    ensures r.Best? ==> Optimum(hard, old(soft[..]), r.value)
    ensures r.Best? && soft.Length > 0 ==> s.calls == old(s.calls) + 1 + (soft.Length - r.value) + 1
    ensures r != Bug
  {
    ghost var p := Input(hard, soft[..], s.next);
    AssertHardConstraints(s, hard);
    assert [] + hard == hard;
    var isSat := s.Check([]);
    HardChecked(hard, isSat);
    if isSat.Unsat? {
      return HardUnsat;
    }
    ghost var some := isSat.model;
    var n := soft.Length;
    if n == 0 {
      return Best(0);
    }
    var auxVars := AssertSoftConstraints(s, soft[..]);
    var aux := new Form[n](i requires 0 <= i < n => auxVars[i]);
    assert aux[..] == auxVars;
    InitiallyConserved(p, s.asserted);
    AllBelowMono(p.soft, p.n0, s.next);
    r := FuMalikLoop(s, soft, aux, p, some);
  }

  method FuMalikLoop(s: Context, soft: array<Form>, aux: array<Form>, ghost p: Input,
                     ghost some: Assignment) returns (r: Outcome)
    requires s.Valid() && soft != aux && 0 < soft.Length == aux.Length < INT_LIMIT && |p.soft| == soft.Length
    requires p.n0 <= s.next && AllBelow(soft[..], s.next) == true && AllBelow(aux[..], s.next) == true
    requires Conserves(p, Current(s.asserted, soft[..], aux[..]), 0) == true && Models(some, p.hard) == true
    modifies s, soft, aux
    ensures r.Best? && Optimum(p.hard, p.soft, r.value)
    ensures s.calls == old(s.calls) + (soft.Length - r.value) + 1
  {
    var n := soft.Length;
    var k := 0;
    while true
      invariant s.Valid() && k <= n && s.calls == old(s.calls) + k
      invariant p.n0 <= s.next && AllBelow(soft[..], s.next) && AllBelow(aux[..], s.next)
      invariant Conserves(p, Current(s.asserted, soft[..], aux[..]), k) == true
      decreases n - k
    {
      var done := FuMalikStep(s, soft, aux, p, k);
      ghost var q := Current(s.asserted, soft[..], aux[..]);
      if done {
        AllMetIsOptimum(p, q, k);
        return Best(n - k);
      }
      UnitsBounded(p, q, k + 1, some);
      k := k + 1;
    }
  }

  /** No more unsatisfiable steps than soft constraints. */
  lemma UnitsBounded(p: Input, q: Current, k: nat, a: Assignment)
    requires Conserves(p, q, k) && Models(a, p.hard)
    ensures k <= |p.soft|
  {
    assert Extends(p, q, k, a);
    var b :| Cheaper(p, q, k, a, b);
  }

  lemma AllMetIsOptimum(p: Input, q: Current, k: nat)
    requires Conserves(p, q, k) && MinFalsified(q.asserted, q.soft, 0)
    ensures k <= |p.soft| && Optimum(p.hard, p.soft, |p.soft| - k)
  {
    ConservedMinimum(p, q, k, 0);
    MinIsOptimum(p.hard, p.soft, k);
  }

  lemma MinIsOptimum(hard: seq<Form>, soft: seq<Form>, v: nat)
    requires MinFalsified(hard, soft, v)
    ensures v <= |soft| && Optimum(hard, soft, |soft| - v)
  {
    var a :| Models(a, hard) && Falsified(soft, a) == v;
    assert Models(a, hard) && Count(soft, a) == |soft| - v;
  }

  lemma InitiallyConserved(p: Input, asserted: seq<Form>)
    requires AllBelow(p.hard, p.n0) && AllBelow(p.soft, p.n0)
    requires asserted == p.hard + Guarded(p.soft, Vars(p.n0, |p.soft|))
    ensures Conserves(p, Current(asserted, p.soft, Vars(p.n0, |p.soft|)), 0) == true
  {
    var aux := Vars(p.n0, |p.soft|);
    var q := Current(asserted, p.soft, aux);
    forall a | Models(a, p.hard) ensures Extends(p, q, 0, a) {
      var b := ExtendAux(p.hard, p.soft, p.n0, a);
      ExactAux(p.soft, aux, b);
      ModelsConcat(p.hard, Guarded(p.soft, aux), b);
      assert Cheaper(p, q, 0, a, b);
    }
    forall a | Models(a, asserted) ensures Pays(p, q, 0, a) { ModelsConcat(p.hard, Guarded(p.soft, aux), a); }
    forall i | 0 <= i < |p.soft| ensures Or(p.soft[i], aux[i]) in asserted { GuardedHas(p.soft, aux, i); }
  }

  lemma {:induction false} GuardedHas(soft: seq<Form>, aux: seq<Form>, i: nat)
    requires |soft| == |aux| && i < |soft|
    ensures Or(soft[i], aux[i]) in Guarded(soft, aux)
  {
    var n := |soft| - 1;
    if i < n { GuardedHas(soft[..n], aux[..n], i); }
  }
}
