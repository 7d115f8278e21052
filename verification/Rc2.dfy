/** RC2, the weighted core-guided MaxSAT procedure of rc2.py: cores are subtracted from the
    weights, and come back as weaker cardinality constraints. */
module Rc2 {
  import opened Prop
  import opened Sets
  import opened Solver

  datatype Bound = Bound(S: seq<Form>, k: nat)

  type Weights = map<Form, nat>
  type Bounds = map<Form, Bound>

  datatype Core = Core(fs: seq<Form>, w: nat)

  function MkNot(f: Form): Form {
    if f.Not? then f.f else Not(f)
  }

  function Negated(fs: seq<Form>): (r: seq<Form>)
    ensures |r| == |fs| && forall i | 0 <= i < |fs| :: r[i] == MkNot(fs[i])
  {
    seq(|fs|, i requires 0 <= i < |fs| => MkNot(fs[i]))
  }

  // ---------------------------------------------------------------- costs

  /** By how much a cardinality constraint is exceeded. */
  function Over(b: Bound, a: Assignment): nat {
    if Count(b.S, a) > b.k then Count(b.S, a) - b.k else 0
  }

  /** What a soft constraint costs per unit of weight. */
  function Penalty(f: Form, bounds: Bounds, a: Assignment): nat {
    if f in bounds then Over(bounds[f], a) else if Eval(f, a) then 0 else 1
  }

  /** w * p. */
  function Times(w: nat, p: nat): nat {
    if p == 0 then 0 else w + Times(w, p - 1)
  }

  lemma {:induction false} TimesIsProduct(w: nat, p: nat)
    ensures Times(w, p) == w * p
  {
    if p > 0 {
      TimesIsProduct(w, p - 1);
      assert w * p == w + w * (p - 1);
    }
  }

  lemma {:induction false} TimesSum(w: nat, x: nat, y: nat)
    ensures Times(w, x + y) == Times(w, x) + Times(w, y)
  {
    if y > 0 { TimesSum(w, x, y - 1); }
  }

  ghost function CostOf(keys: set<Form>, ws: Weights, bounds: Bounds, a: Assignment): nat
    requires keys <= ws.Keys
  {
    if keys == {} then 0
    else
      var f :| f in keys;
      Times(ws[f], Penalty(f, bounds, a)) + CostOf(keys - {f}, ws, bounds, a)
  }

  ghost function Cost(ws: Weights, bounds: Bounds, a: Assignment): nat {
    CostOf(ws.Keys, ws, bounds, a)
  }

  /** The weight of the input constraints an assignment falsifies. */
  ghost function FalsifiedWeight(ws: Weights, a: Assignment): nat {
    Cost(ws, map[], a)
  }

  function PenaltySum(fs: seq<Form>, bounds: Bounds, a: Assignment): nat {
    if |fs| == 0 then 0 else PenaltySum(fs[..|fs| - 1], bounds, a) + Penalty(fs[|fs| - 1], bounds, a)
  }

  /** What the cores taken out of the weights, but not yet paid for, still cost. */
  function Pending(cores: seq<Core>, bounds: Bounds, a: Assignment): nat {
    if |cores| == 0 then 0 else Times(cores[0].w, PenaltySum(cores[0].fs, bounds, a)) + Pending(cores[1..], bounds, a)
  }

  lemma {:induction false} CostPick(keys: set<Form>, ws: Weights, bounds: Bounds, a: Assignment, f: Form)
    requires keys <= ws.Keys && f in keys
    ensures CostOf(keys, ws, bounds, a) == Times(ws[f], Penalty(f, bounds, a)) + CostOf(keys - {f}, ws, bounds, a)
    decreases keys
  {
    var g :| g in keys
             && CostOf(keys, ws, bounds, a) == Times(ws[g], Penalty(g, bounds, a)) + CostOf(keys - {g}, ws, bounds, a);
    if g != f {
      CostPick(keys - {g}, ws, bounds, a, f);
      CostPick(keys - {f}, ws, bounds, a, g);
      assert keys - {g} - {f} == keys - {f} - {g};
    }
  }

  lemma {:induction false} CostSame(keys: set<Form>, ws: Weights, bounds: Bounds, a: Assignment, ws': Weights,
                                    bounds': Bounds, a': Assignment)
    requires keys <= ws.Keys && keys <= ws'.Keys
    requires forall f | f in keys :: ws[f] == ws'[f] && Penalty(f, bounds, a) == Penalty(f, bounds', a')
    ensures CostOf(keys, ws, bounds, a) == CostOf(keys, ws', bounds', a')
    decreases keys
  {
    if keys != {} {
      var f :| f in keys;
      CostPick(keys, ws, bounds, a, f);
      CostPick(keys, ws', bounds', a', f);
      CostSame(keys - {f}, ws, bounds, a, ws', bounds', a');
    }
  }

  lemma {:induction false} CostZero(keys: set<Form>, ws: Weights, bounds: Bounds, a: Assignment)
    requires keys <= ws.Keys && forall f | f in keys :: Penalty(f, bounds, a) == 0
    ensures CostOf(keys, ws, bounds, a) == 0
    decreases keys
  {
    if keys != {} {
      var f :| f in keys;
      CostPick(keys, ws, bounds, a, f);
      CostZero(keys - {f}, ws, bounds, a);
    }
  }

  // ---------------------------------------------------------------- the weight dictionary

  function Added(ws: Weights, f: Form, w: nat): Weights {
    ws[f := w + if f in ws then ws[f] else 0]
  }

  function Subtracted(ws: Weights, f: Form, w: nat): Weights
    requires f in ws
  {
    if ws[f] > w then ws[f := ws[f] - w] else ws - {f}
  }

  lemma {:induction false} Distribute(x: nat, y: nat, p: nat)
    ensures Times(x + y, p) == Times(x, p) + Times(y, p)
  {
    if p > 0 { Distribute(x, y, p - 1); }
  }

  lemma AddedCost(ws: Weights, f: Form, w: nat, bounds: Bounds, a: Assignment)
    ensures Cost(Added(ws, f, w), bounds, a) == Cost(ws, bounds, a) + Times(w, Penalty(f, bounds, a))
  {
    var ws' := Added(ws, f, w);
    CostPick(ws'.Keys, ws', bounds, a, f);
    CostSame(ws'.Keys - {f}, ws', bounds, a, ws, bounds, a);
    if f in ws {
      CostPick(ws.Keys, ws, bounds, a, f);
      assert ws'.Keys - {f} == ws.Keys - {f};
      Distribute(w, ws[f], Penalty(f, bounds, a));
    } else {
      assert ws'.Keys - {f} == ws.Keys;
    }
  }

  lemma SubtractedCost(ws: Weights, f: Form, w: nat, bounds: Bounds, a: Assignment)
    requires f in ws && w <= ws[f]
    ensures Cost(Subtracted(ws, f, w), bounds, a) + Times(w, Penalty(f, bounds, a)) == Cost(ws, bounds, a)
  {
    var ws', p := Subtracted(ws, f, w), Penalty(f, bounds, a);
    CostPick(ws.Keys, ws, bounds, a, f);
    CostSame(ws.Keys - {f}, ws, bounds, a, ws', bounds, a);
    if ws[f] > w {
      CostPick(ws'.Keys, ws', bounds, a, f);
      assert ws'.Keys - {f} == ws.Keys - {f};
      Distribute(ws[f] - w, w, p);
    } else {
      assert ws'.Keys == ws.Keys - {f};
    }
  }

  // ---------------------------------------------------------------- names

  /** Every name has the truth value of the cardinality constraint it stands for. */
  ghost predicate Canonical(bounds: Bounds, a: Assignment) {
    forall n | n in bounds :: Eval(n, a) <==> Count(bounds[n].S, a) <= bounds[n].k
  }

  /** A member of a bound: over the input's variables, or a negated name. */
  ghost predicate Member(g: Form, bounds: Bounds, n0: nat) {
    Below(g, n0) || (g.Not? && g.f in bounds)
  }

  ghost predicate WellNamed(n: Form, bounds: Bounds, n0: nat, next: nat)
    requires n in bounds
  {
    && n.Var? && n0 <= n.x < next && AllBelow(bounds[n].S, n.x)
    && forall i | 0 <= i < |bounds[n].S| :: Member(bounds[n].S[i], bounds, n0)
  }

  ghost predicate AllNamed(bounds: Bounds, n0: nat, next: nat) {
    forall n | n in bounds :: WellNamed(n, bounds, n0, next)
  }

  /** An assignment of the input's variables, extended to the names below x. */
  ghost function Canon(a: Assignment, bounds: Bounds, n0: nat, x: nat): Assignment
    requires n0 <= x
    decreases x
  {
    if x == n0 then set v | v in a && v < n0
    else
      var c := Canon(a, bounds, n0, x - 1);
      if Var(x - 1) in bounds && Count(bounds[Var(x - 1)].S, c) <= bounds[Var(x - 1)].k then c + {x - 1} else c
  }

  lemma {:induction false} CanonAgree(a: Assignment, bounds: Bounds, n0: nat, x: nat, y: nat)
    requires n0 <= x <= y
    ensures Agree(Canon(a, bounds, n0, x), Canon(a, bounds, n0, y), x)
    ensures forall v | v in Canon(a, bounds, n0, y) :: v < y
    decreases y
  {
    if y > n0 { CanonAgree(a, bounds, n0, if x < y then x else y - 1, y - 1); }
  }

  lemma CanonIsCanonical(a: Assignment, bounds: Bounds, n0: nat, next: nat)
    requires n0 <= next && AllNamed(bounds, n0, next)
    ensures Canonical(bounds, Canon(a, bounds, n0, next)) && Agree(a, Canon(a, bounds, n0, next), n0)
  {
    var c := Canon(a, bounds, n0, next);
    forall n | n in bounds ensures Eval(n, c) <==> Count(bounds[n].S, c) <= bounds[n].k {
      assert WellNamed(n, bounds, n0, next);
      var x := n.x;
      CanonAgree(a, bounds, n0, x + 1, next);
      CanonAgree(a, bounds, n0, x, next);
      CountAgree(bounds[n].S, Canon(a, bounds, n0, x), c, x);
      CanonAgree(a, bounds, n0, x, x);
    }
    CanonAgree(a, bounds, n0, n0, next);
  }

  /** Names that a model makes true stay true when all names get their proper values,
      because their members occur negated only. */
  lemma {:induction false} CanonTruer(m: Assignment, bounds: Bounds, n0: nat, next: nat, x: nat)
    requires n0 <= x <= next && AllNamed(bounds, n0, next)
    requires forall n | n in bounds && Eval(n, m) :: Count(bounds[n].S, m) <= bounds[n].k
    ensures forall n | n in bounds && n.Var? && n.x < x && Eval(n, m) :: Eval(n, Canon(m, bounds, n0, x))
    decreases x
  {
    if x > n0 {
      CanonTruer(m, bounds, n0, next, x - 1);
      var n, c := Var(x - 1), Canon(m, bounds, n0, x - 1);
      if n in bounds && Eval(n, m) {
        assert WellNamed(n, bounds, n0, next);
        var S := bounds[n].S;
        CanonAgree(m, bounds, n0, n0, x - 1);
        forall i | 0 <= i < |S| ensures Eval(S[i], c) ==> Eval(S[i], m) {
          assert Member(S[i], bounds, n0);
          if Below(S[i], n0) { EvalAgree(S[i], m, c, n0); }
          else { assert Below(S[i], n.x); assert WellNamed(S[i].f, bounds, n0, next); }
        }
        CountLe(S, c, S, m);
      }
    } else {
      forall n | n in bounds && n.Var? ensures n.x >= x { assert WellNamed(n, bounds, n0, next); }
    }
  }

  // ---------------------------------------------------------------- the conservation law

  /** The input: hard constraints and initial weights, over variables below n0. */
  datatype Input = Input(hard: seq<Form>, ws: Weights, n0: nat)

  ghost predicate Feasible(p: Input, bounds: Bounds, a: Assignment) {
    Models(a, p.hard) && Canonical(bounds, a)
  }

  ghost predicate Balanced(p: Input, bounds: Bounds, ws: Weights, cores: seq<Core>, minCost: nat, a: Assignment) {
    FalsifiedWeight(p.ws, a) == minCost + Cost(ws, bounds, a) + Pending(cores, bounds, a)
  }

  /** Original cost = min_cost + what the present weights and the pending cores cost. */
  ghost predicate Conserves(p: Input, bounds: Bounds, ws: Weights, cores: seq<Core>, minCost: nat) {
    forall a {:trigger Balanced(p, bounds, ws, cores, minCost, a)} | Feasible(p, bounds, a) ::
      Balanced(p, bounds, ws, cores, minCost, a)
  }

  /** No feasible assignment satisfies the whole core. */
  ghost predicate Refuted(p: Input, bounds: Bounds, core: seq<Form>) {
    forall a {:trigger Feasible(p, bounds, a)} | Feasible(p, bounds, a) :: Count(Negated(core), a) >= 1
  }

  /** The weights after a core was subtracted. */
  function SubtractAll(ws: Weights, fs: seq<Form>, w: nat): Weights {
    map f | f in ws && (f !in fs || ws[f] > w) :: if f in fs then ws[f] - w else ws[f]
  }

  lemma SubtractStep(ws: Weights, fs: seq<Form>, w: nat, f: Form)
    requires f in ws && f !in fs
    ensures SubtractAll(ws, fs + [f], w) == Subtracted(SubtractAll(ws, fs, w), f, w)
  {}

  /** Taking a core out of the weights moves its cost, w per unit of penalty. */
  lemma {:induction false} SubtractCost(ws: Weights, fs: seq<Form>, w: nat, bounds: Bounds, a: Assignment)
    requires Distinct(fs) && (forall f | f in fs :: f in ws && w <= ws[f])
    ensures Cost(SubtractAll(ws, fs, w), bounds, a) + Times(w, PenaltySum(fs, bounds, a)) == Cost(ws, bounds, a)
    decreases |fs|
  {
    if |fs| == 0 {
      assert SubtractAll(ws, fs, w) == ws;
    } else {
      var init, last := fs[..|fs| - 1], fs[|fs| - 1];
      assert fs == init + [last];
      var ws' := SubtractAll(ws, init, w);
      SubtractCost(ws, init, w, bounds, a);
      SubtractStep(ws, init, w, last);
      SubtractedCost(ws', last, w, bounds, a);
      TimesSum(w, PenaltySum(init, bounds, a), Penalty(last, bounds, a));
    }
  }

  // ---------------------------------------------------------------- weakening a core

  /** The cost that is left of a core member once it may be exceeded by one more. */
  function Weakened(f: Form, bounds: Bounds, a: Assignment): nat {
    if f in bounds && bounds[f].k + 1 < |bounds[f].S| then Over(bounds[f].(k := bounds[f].k + 1), a) else 0
  }

  function WeakenedSum(fs: seq<Form>, bounds: Bounds, a: Assignment): nat {
    if |fs| == 0 then 0 else WeakenedSum(fs[..|fs| - 1], bounds, a) + Weakened(fs[|fs| - 1], bounds, a)
  }

  lemma EvalMkNot(f: Form, a: Assignment)
    ensures Eval(MkNot(f), a) <==> !Eval(f, a)
  {}

  /** Weakening every member saves one per falsified member. */
  lemma {:induction false} PenaltySplit(fs: seq<Form>, bounds: Bounds, a: Assignment)
    requires Canonical(bounds, a)
    ensures PenaltySum(fs, bounds, a) == WeakenedSum(fs, bounds, a) + Count(Negated(fs), a)
  {
    if |fs| > 0 {
      var init, last := fs[..|fs| - 1], fs[|fs| - 1];
      PenaltySplit(init, bounds, a);
      assert Negated(fs)[..|fs| - 1] == Negated(init);
      EvalMkNot(last, a);
    }
  }

  /** A core costs its weight, plus what its weakened members and the constraint that at
      most one of them be weakened cost. */
  lemma CorePays(fs: seq<Form>, w: nat, bounds: Bounds, a: Assignment)
    requires Canonical(bounds, a) && Count(Negated(fs), a) >= 1
    ensures Times(w, PenaltySum(fs, bounds, a)) ==
            w + Times(w, WeakenedSum(fs, bounds, a)) + Times(w, Over(Bound(Negated(fs), 1), a))
  {
    PenaltySplit(fs, bounds, a);
    var x, y := WeakenedSum(fs, bounds, a), Over(Bound(Negated(fs), 1), a);
    TimesSum(w, x, y);
    assert PenaltySum(fs, bounds, a) == x + y + 1;
  }

  // ---------------------------------------------------------------- growing the bounds

  /** New names are fresh: nothing old can be one of them. */
  ghost predicate Grows(bounds: Bounds, bounds': Bounds, next: nat) {
    && (forall n | n in bounds :: n in bounds' && bounds'[n] == bounds[n])
    && (forall n | n in bounds' && n !in bounds :: n.Var? && n.x >= next)
  }

  /** What may be weighted: a name or an input constraint. */
  ghost predicate Weighable(f: Form, bounds: Bounds, n0: nat) {
    f in bounds || Below(f, n0)
  }

  ghost predicate AllWeighable(ws: Weights, bounds: Bounds, n0: nat) {
    forall f | f in ws :: ws[f] > 0 && Weighable(f, bounds, n0)
  }

  ghost predicate GoodCore(p: Input, bounds: Bounds, c: Core) {
    && c.w > 0 && |c.fs| > 0 && Refuted(p, bounds, c.fs)
    && forall i | 0 <= i < |c.fs| :: Weighable(c.fs[i], bounds, p.n0)
  }

  lemma GrowsTrans(b0: Bounds, b1: Bounds, b2: Bounds, n0: nat, n1: nat)
    requires Grows(b0, b1, n0) && Grows(b1, b2, n1) && n0 <= n1
    ensures Grows(b0, b2, n0)
  {}

  lemma GrowsFeasible(p: Input, bounds: Bounds, bounds': Bounds, next: nat, a: Assignment)
    requires Grows(bounds, bounds', next) && Feasible(p, bounds', a)
    ensures Feasible(p, bounds, a)
  {}

  lemma GrowsPenalty(f: Form, bounds: Bounds, bounds': Bounds, n0: nat, next: nat, a: Assignment)
    requires Grows(bounds, bounds', next) && n0 <= next && Weighable(f, bounds, n0)
    ensures Penalty(f, bounds', a) == Penalty(f, bounds, a) && Weighable(f, bounds', n0)
    ensures f in bounds' <==> f in bounds
  {}

  lemma GrowsCost(ws: Weights, bounds: Bounds, bounds': Bounds, n0: nat, next: nat, a: Assignment)
    requires Grows(bounds, bounds', next) && n0 <= next && AllWeighable(ws, bounds, n0)
    ensures Cost(ws, bounds', a) == Cost(ws, bounds, a) && AllWeighable(ws, bounds', n0)
  {
    forall f | f in ws ensures Penalty(f, bounds', a) == Penalty(f, bounds, a) && Weighable(f, bounds', n0) {
      GrowsPenalty(f, bounds, bounds', n0, next, a);
    }
    CostSame(ws.Keys, ws, bounds', a, ws, bounds, a);
  }

  lemma {:induction false} GrowsPenaltySum(fs: seq<Form>, bounds: Bounds, bounds': Bounds, n0: nat, next: nat,
                                           a: Assignment)
    requires Grows(bounds, bounds', next) && n0 <= next
    requires forall i | 0 <= i < |fs| :: Weighable(fs[i], bounds, n0)
    ensures PenaltySum(fs, bounds', a) == PenaltySum(fs, bounds, a)
  {
    if |fs| > 0 {
      GrowsPenaltySum(fs[..|fs| - 1], bounds, bounds', n0, next, a);
      GrowsPenalty(fs[|fs| - 1], bounds, bounds', n0, next, a);
    }
  }

  lemma {:induction false} GrowsPending(p: Input, cores: seq<Core>, bounds: Bounds, bounds': Bounds, next: nat,
                                        a: Assignment)
    requires Grows(bounds, bounds', next) && p.n0 <= next
    requires forall i | 0 <= i < |cores| :: GoodCore(p, bounds, cores[i])
    ensures Pending(cores, bounds', a) == Pending(cores, bounds, a)
  {
    if |cores| > 0 {
      GrowsPenaltySum(cores[0].fs, bounds, bounds', p.n0, next, a);
      GrowsPending(p, cores[1..], bounds, bounds', next, a);
    }
  }

  lemma GrowsGoodCore(p: Input, c: Core, bounds: Bounds, bounds': Bounds, next: nat)
    requires Grows(bounds, bounds', next) && p.n0 <= next && GoodCore(p, bounds, c)
    ensures GoodCore(p, bounds', c)
  {
    forall a {:trigger Feasible(p, bounds', a)} | Feasible(p, bounds', a) ensures Count(Negated(c.fs), a) >= 1 {
      GrowsFeasible(p, bounds, bounds', next, a);
    }
  }

  lemma {:induction false} PendingSnoc(cores: seq<Core>, c: Core, bounds: Bounds, a: Assignment)
    ensures Pending(cores + [c], bounds, a) == Pending(cores, bounds, a) + Times(c.w, PenaltySum(c.fs, bounds, a))
  {
    if |cores| == 0 {
      assert [] + [c] == [c] && [c][1..] == [];
    } else {
      assert (cores + [c])[1..] == cores[1..] + [c];
      PendingSnoc(cores[1..], c, bounds, a);
    }
  }

  // ---------------------------------------------------------------- the procedure

  /** The dictionary of weights. */
  class Dict {
    var m: Weights

    constructor (m: Weights)
      ensures this.m == m
    {
      this.m := m;
    }

    method Add(f: Form, w: nat)
      modifies this
      ensures m == Added(old(m), f, w)
    {
      m := m[f := w + if f in m then m[f] else 0];
    }

    method Sub(f: Form, w: nat)
      requires f in m
      modifies this
      ensures m == Subtracted(old(m), f, w)
    {
      var w1 := m[f];
      if w1 > w {
        m := m[f := w1 - w];
      } else {
        m := m - {f};
      }
    }
  }

  method MinWeight(m: Weights, core: seq<Form>) returns (w: nat)
    requires |core| > 0 && forall f | f in core :: f in m
    ensures (forall f | f in core :: w <= m[f]) && exists f :: f in core && m[f] == w
  {
    w := m[core[0]];
    ghost var at := core[0];
    for i := 1 to |core|
      invariant at in core && m[at] == w && forall j | 0 <= j < i :: w <= m[core[j]]
    {
      if m[core[i]] < w {
        w := m[core[i]];
        at := core[i];
      }
    }
  }

  datatype Outcome = HardUnsat | Best(cost: nat, falses: set<Form>)

  /** What the solver knows: the hard constraints, one implication per name, and nothing
      that a feasible assignment violates. */
  ghost predicate Faithful(p: Input, bounds: Bounds, asserted: seq<Form>) {
    && (forall f | f in p.hard :: f in asserted)
    && (forall n | n in bounds :: Implies(n, AtMost(bounds[n].S, bounds[n].k)) in asserted)
    && forall a {:trigger Feasible(p, bounds, a)} | Feasible(p, bounds, a) :: Models(a, asserted)
  }

  ghost predicate WellFormed(p: Input) {
    AllBelow(p.hard, p.n0) && forall f | f in p.ws :: Below(f, p.n0) && p.ws[f] > 0
  }

  lemma NewName(p: Input, bounds: Bounds, asserted: seq<Form>, S: seq<Form>, k: nat, next: nat)
    requires p.n0 <= next && AllNamed(bounds, p.n0, next) && Faithful(p, bounds, asserted)
    requires AllBelow(S, next) && forall i | 0 <= i < |S| :: Member(S[i], bounds, p.n0)
    ensures Var(next) !in bounds
    ensures var bounds' := bounds[Var(next) := Bound(S, k)];
      && Grows(bounds, bounds', next) && AllNamed(bounds', p.n0, next + 1)
      && Faithful(p, bounds', asserted + [Implies(Var(next), AtMost(S, k))])
  {
    var name, fml := Var(next), AtMost(S, k);
    assert name !in bounds by { assert forall n | n in bounds :: WellNamed(n, bounds, p.n0, next) && n != name; }
    var bounds' := bounds[name := Bound(S, k)];
    forall n | n in bounds' ensures WellNamed(n, bounds', p.n0, next + 1) {
      if n != name { assert WellNamed(n, bounds, p.n0, next); }
    }
    forall a {:trigger Feasible(p, bounds', a)} | Feasible(p, bounds', a)
      ensures Models(a, asserted + [Implies(name, fml)])
    {
      GrowsFeasible(p, bounds, bounds', next, a);
      assert Eval(name, a) <==> Count(bounds'[name].S, a) <= bounds'[name].k;
      assert Eval(fml, a) <==> Count(S, a) <= k;
    }
  }

  /** A model of the hard constraints has a feasible extension of the same original cost. */
  lemma Extension(p: Input, bounds: Bounds, next: nat, a: Assignment) returns (c: Assignment)
    requires p.n0 <= next && AllNamed(bounds, p.n0, next) && WellFormed(p) && Models(a, p.hard)
    ensures Feasible(p, bounds, c) && Agree(a, c, p.n0) && FalsifiedWeight(p.ws, c) == FalsifiedWeight(p.ws, a)
    ensures c == Canon(a, bounds, p.n0, next)
  {
    c := Canon(a, bounds, p.n0, next);
    CanonIsCanonical(a, bounds, p.n0, next);
    ModelsAgree(p.hard, a, c, p.n0);
    forall f | f in p.ws ensures Eval(f, a) == Eval(f, c) { EvalAgree(f, a, c, p.n0); }
    CostSame(p.ws.Keys, p.ws, map[], c, p.ws, map[], a);
  }

  /** min_cost never exceeds the cost of any model of the hard constraints. */
  lemma LowerBound(p: Input, bounds: Bounds, ws: Weights, cores: seq<Core>, minCost: nat, next: nat, a: Assignment)
    requires p.n0 <= next && AllNamed(bounds, p.n0, next) && WellFormed(p) && Models(a, p.hard)
    requires Conserves(p, bounds, ws, cores, minCost)
    ensures minCost <= FalsifiedWeight(p.ws, a)
  {
    var c := Extension(p, bounds, next, a);
    assert Balanced(p, bounds, ws, cores, minCost, c);
  }

  lemma EmptyCore(p: Input, bounds: Bounds, asserted: seq<Form>, next: nat)
    requires p.n0 <= next && AllNamed(bounds, p.n0, next) && WellFormed(p) && Faithful(p, bounds, asserted)
    requires Refutes([], asserted)
    ensures !Satisfiable(p.hard)
  {
    if Satisfiable(p.hard) {
      var a :| Models(a, p.hard);
      var c := Extension(p, bounds, next, a);
      assert false;
    }
  }

  lemma CoreIsGood(p: Input, bounds: Bounds, asserted: seq<Form>, core: seq<Form>)
    requires Faithful(p, bounds, asserted) && Refutes(core, asserted)
    ensures Refuted(p, bounds, core)
  {
    forall a {:trigger Feasible(p, bounds, a)} | Feasible(p, bounds, a) ensures Count(Negated(core), a) >= 1 {
      var f :| f in core && !Eval(f, a);
      var i :| 0 <= i < |core| && core[i] == f;
      EvalMkNot(f, a);
      CountNone(Negated(core), a);
    }
  }

  /** Moving a core from the weights to the pending ones keeps the law. */
  lemma TakeCore(p: Input, bounds: Bounds, ws: Weights, cores: seq<Core>, minCost: nat, core: seq<Form>, w: nat)
    requires Conserves(p, bounds, ws, cores, minCost)
    requires Distinct(core) && forall f | f in core :: f in ws && w <= ws[f]
    ensures Conserves(p, bounds, SubtractAll(ws, core, w), cores + [Core(core, w)], minCost)
  {
    var ws', cores' := SubtractAll(ws, core, w), cores + [Core(core, w)];
    forall a {:trigger Balanced(p, bounds, ws', cores', minCost, a)} | Feasible(p, bounds, a)
      ensures Balanced(p, bounds, ws', cores', minCost, a)
    {
      assert Balanced(p, bounds, ws, cores, minCost, a);
      SubtractCost(ws, core, w, bounds, a);
      PendingSnoc(cores, Core(core, w), bounds, a);
    }
  }

  lemma FewerKeys(ws: Weights, core: seq<Form>, w: nat, f: Form)
    requires f in core && f in ws && ws[f] == w
    ensures |SubtractAll(ws, core, w).Keys| < |ws.Keys|
  {
    var ws' := SubtractAll(ws, core, w);
    assert ws'.Keys <= ws.Keys - {f};
    SubsetSize(ws'.Keys, ws.Keys - {f});
  }

  method SubAll(ws: Dict, core: seq<Form>, w: nat)
    requires Distinct(core) && forall f | f in core :: f in ws.m
    modifies ws
    ensures ws.m == SubtractAll(old(ws.m), core, w)
  {
    assert SubtractAll(ws.m, core[..0], w) == ws.m;
    for i := 0 to |core|
      invariant ws.m == SubtractAll(old(ws.m), core[..i], w)
    {
      assert core[..i + 1] == core[..i] + [core[i]];
      SubtractStep(old(ws.m), core[..i], w, core[i]);
      ws.Sub(core[i], w);
    }
    assert core[..|core|] == core;
  }

  /** Subtracts a core at its least weight, which removes at least one key. */
  method TakeOut(ws: Dict, core: seq<Form>) returns (w: nat)
    requires |core| > 0 && Distinct(core) && forall f | f in core :: f in ws.m
    modifies ws
    ensures ws.m == SubtractAll(old(ws.m), core, w) && |ws.m.Keys| < |old(ws.m).Keys|
    ensures (forall f | f in core :: w <= old(ws.m)[f]) && exists f :: f in core && old(ws.m)[f] == w
  {
    w := MinWeight(ws.m, core);
    ghost var least :| least in core && ws.m[least] == w;
    FewerKeys(ws.m, core, w, least);
    SubAll(ws, core, w);
  }

  // -- paying for one core

  /** The weights have taken on the weakened members of fs. */
  ghost predicate Repaid(p: Input, b0: Bounds, m0: Weights, bounds: Bounds, m: Weights, w: nat, fs: seq<Form>,
                         a: Assignment) {
    Cost(m, bounds, a) == Cost(m0, b0, a) + Times(w, WeakenedSum(fs, b0, a))
  }

  ghost predicate AllRepaid(p: Input, b0: Bounds, m0: Weights, bounds: Bounds, m: Weights, w: nat, fs: seq<Form>) {
    forall a {:trigger Repaid(p, b0, m0, bounds, m, w, fs, a)} | Feasible(p, bounds, a) ::
      Repaid(p, b0, m0, bounds, m, w, fs, a)
  }

  lemma RepayOne(p: Input, b0: Bounds, m0: Weights, b1: Bounds, m1: Weights, b2: Bounds, w: nat, fs: seq<Form>, f: Form,
                 name: Form, n0: nat, n1: nat)
    requires p.n0 <= n0 <= n1 && Grows(b0, b1, n0) && Grows(b1, b2, n1) && AllWeighable(m1, b1, p.n0) && w > 0
    requires AllRepaid(p, b0, m0, b1, m1, w, fs)
    requires f in b0 && b0[f].k + 1 < |b0[f].S| && name in b2 && b2[name] == b0[f].(k := b0[f].k + 1)
    ensures AllRepaid(p, b0, m0, b2, Added(m1, name, w), w, fs + [f]) && AllWeighable(Added(m1, name, w), b2, p.n0)
  {
    var m2, gs := Added(m1, name, w), fs + [f];
    forall a {:trigger Repaid(p, b0, m0, b2, m2, w, gs, a)} | Feasible(p, b2, a)
      ensures Repaid(p, b0, m0, b2, m2, w, gs, a)
    {
      GrowsFeasible(p, b1, b2, n1, a);
      assert Repaid(p, b0, m0, b1, m1, w, fs, a);
      GrowsCost(m1, b1, b2, p.n0, n1, a);
      RepaidAt(p, b0, m0, b1, m1, b2, w, fs, f, name, a);
    }
    GrowsCost(m1, b1, b2, p.n0, n1, {});
  }

  /** One member weakened, for one assignment. */
  lemma RepaidAt(p: Input, b0: Bounds, m0: Weights, b1: Bounds, m1: Weights, b2: Bounds, w: nat, fs: seq<Form>, f: Form,
                 name: Form, a: Assignment)
    requires Repaid(p, b0, m0, b1, m1, w, fs, a) && Cost(m1, b2, a) == Cost(m1, b1, a)
    requires f in b0 && b0[f].k + 1 < |b0[f].S| && name in b2 && b2[name] == b0[f].(k := b0[f].k + 1)
    ensures Repaid(p, b0, m0, b2, Added(m1, name, w), w, fs + [f], a)
  {
    var gs := fs + [f];
    AddedCost(m1, name, w, b2, a);
    assert gs[..|gs| - 1] == fs && gs[|gs| - 1] == f;
    TimesSum(w, WeakenedSum(fs, b0, a), Weakened(f, b0, a));
  }

  lemma RepayNone(p: Input, b0: Bounds, m0: Weights, b1: Bounds, m1: Weights, w: nat, fs: seq<Form>, f: Form)
    requires AllRepaid(p, b0, m0, b1, m1, w, fs)
    requires !(f in b0 && b0[f].k + 1 < |b0[f].S|)
    ensures AllRepaid(p, b0, m0, b1, m1, w, fs + [f])
  {
    var gs := fs + [f];
    forall a {:trigger Repaid(p, b0, m0, b1, m1, w, gs, a)} | Feasible(p, b1, a)
      ensures Repaid(p, b0, m0, b1, m1, w, gs, a)
    {
      assert Repaid(p, b0, m0, b1, m1, w, fs, a);
      assert gs[..|gs| - 1] == fs;
    }
  }

  /** With the at-most-one constraint added, the core is paid for. */
  lemma PayCore(p: Input, b0: Bounds, m0: Weights, b1: Bounds, m1: Weights, b2: Bounds, core: Core, rest: seq<Core>,
                name: Form, minCost: nat, n0: nat, n1: nat)
    requires p.n0 <= n0 <= n1 && Grows(b0, b1, n0) && Grows(b1, b2, n1) && AllWeighable(m1, b1, p.n0)
    requires AllRepaid(p, b0, m0, b1, m1, core.w, core.fs)
    requires GoodCore(p, b0, core) && forall i | 0 <= i < |rest| :: GoodCore(p, b0, rest[i])
    requires Conserves(p, b0, m0, [core] + rest, minCost)
    requires name in b2 && b2[name] == Bound(Negated(core.fs), 1)
    ensures Conserves(p, b2, Added(m1, name, core.w), rest, minCost + core.w)
    ensures AllWeighable(Added(m1, name, core.w), b2, p.n0)
  {
    var m2, min', cores := Added(m1, name, core.w), minCost + core.w, [core] + rest;
    forall a {:trigger Balanced(p, b2, m2, rest, min', a)} | Feasible(p, b2, a)
      ensures Balanced(p, b2, m2, rest, min', a)
    {
      GrowsFeasible(p, b1, b2, n1, a);
      GrowsFeasible(p, b0, b1, n0, a);
      assert Balanced(p, b0, m0, cores, minCost, a) && Repaid(p, b0, m0, b1, m1, core.w, core.fs, a);
      assert cores[1..] == rest;
      CorePays(core.fs, core.w, b0, a);
      AddedCost(m1, name, core.w, b2, a);
      GrowsCost(m1, b1, b2, p.n0, n1, a);
      GrowsTrans(b0, b1, b2, n0, n1);
      GrowsPending(p, rest, b0, b2, n0, a);
    }
    GrowsCost(m1, b1, b2, p.n0, n1, {});
  }

  lemma BoundUsable(p: Input, bounds: Bounds, f: Form, next: nat)
    requires AllNamed(bounds, p.n0, next) && f in bounds
    ensures AllBelow(bounds[f].S, next) && forall i | 0 <= i < |bounds[f].S| :: Member(bounds[f].S[i], bounds, p.n0)
  {
    assert WellNamed(f, bounds, p.n0, next);
    AllBelowMono(bounds[f].S, f.x, next);
  }

  lemma NegatedUsable(p: Input, fs: seq<Form>, b0: Bounds, bounds: Bounds, n0: nat, next: nat)
    requires p.n0 <= n0 <= next && AllNamed(bounds, p.n0, next) && Grows(b0, bounds, n0)
    requires forall i | 0 <= i < |fs| :: Weighable(fs[i], b0, p.n0)
    ensures AllBelow(Negated(fs), next) && forall i | 0 <= i < |fs| :: Member(Negated(fs)[i], bounds, p.n0)
  {
    forall i | 0 <= i < |fs| ensures Below(Negated(fs)[i], next) && Member(Negated(fs)[i], bounds, p.n0) {
      if fs[i] in bounds {
        assert WellNamed(fs[i], bounds, p.n0, next);
      } else {
        assert Below(MkNot(fs[i]), p.n0);
        BelowMono(MkNot(fs[i]), p.n0, next);
      }
    }
  }

  lemma InitiallyConserved(p: Input)
    requires WellFormed(p)
    ensures Conserves(p, map[], p.ws, [], 0) && AllWeighable(p.ws, map[], p.n0) && Faithful(p, map[], p.hard)
  {
  }

  /** When all weighted constraints hold at once, min_cost is what the model falsifies. */
  lemma ModelIsOptimal(p: Input, bounds: Bounds, ws: Weights, minCost: nat, asserted: seq<Form>, next: nat,
                       m: Assignment)
    requires p.n0 <= next && AllNamed(bounds, p.n0, next) && WellFormed(p) && Faithful(p, bounds, asserted)
    requires Conserves(p, bounds, ws, [], minCost) && AllWeighable(ws, bounds, p.n0)
    requires Models(m, asserted) && forall f | f in ws :: Eval(f, m)
    ensures Models(m, p.hard) && FalsifiedWeight(p.ws, m) == minCost
    ensures forall a | Models(a, p.hard) :: minCost <= FalsifiedWeight(p.ws, a)
  {
    var c := Extension(p, bounds, next, m);
    forall n | n in bounds && Eval(n, m) ensures Count(bounds[n].S, m) <= bounds[n].k {
      assert Eval(Implies(n, AtMost(bounds[n].S, bounds[n].k)), m);
      assert Eval(AtMost(bounds[n].S, bounds[n].k), m);
    }
    CanonTruer(m, bounds, p.n0, next, next);
    forall f | f in ws ensures Penalty(f, bounds, c) == 0 {
      if f in bounds { assert WellNamed(f, bounds, p.n0, next); }
      else { EvalAgree(f, m, c, p.n0); }
    }
    CostZero(ws.Keys, ws, bounds, c);
    assert Balanced(p, bounds, ws, [], minCost, c);
    forall a | Models(a, p.hard) ensures minCost <= FalsifiedWeight(p.ws, a) {
      LowerBound(p, bounds, ws, [], minCost, next, a);
    }
  }

  predicate Names(bounds: Bounds, names: map<Form, Form>, f: Form)
    requires f in names
  {
    names[f] in bounds && f == AtMost(bounds[names[f]].S, bounds[names[f]].k)
  }

  predicate IsNamed(bounds: Bounds, names: map<Form, Form>, n: Form)
    requires n in bounds
  {
    var f := AtMost(bounds[n].S, bounds[n].k);
    f in names && names[f] == n
  }

  /** Each constraint in use has one name, and is found under it. */
  ghost predicate NamesExact(bounds: Bounds, names: map<Form, Form>) {
    && (forall f {:trigger Names(bounds, names, f)} | f in names :: Names(bounds, names, f))
    && (forall n {:trigger IsNamed(bounds, names, n)} | n in bounds :: IsNamed(bounds, names, n))
  }

  /** No two names stand for the same constraint. */
  lemma OneName(bounds: Bounds, names: map<Form, Form>, n1: Form, n2: Form)
    requires NamesExact(bounds, names) && n1 in bounds && n2 in bounds && bounds[n1] == bounds[n2]
    ensures n1 == n2
  {
    assert IsNamed(bounds, names, n1) && IsNamed(bounds, names, n2);
  }

  lemma NamesGrow(bounds: Bounds, names: map<Form, Form>, name: Form, S: seq<Form>, k: nat)
    requires NamesExact(bounds, names) == true && name !in bounds && AtMost(S, k) !in names
    ensures NamesExact(bounds[name := Bound(S, k)], names[AtMost(S, k) := name]) == true
    ensures forall n | n in bounds :: bounds[n] != Bound(S, k)
  {
    var bounds', names' := bounds[name := Bound(S, k)], names[AtMost(S, k) := name];
    forall f | f in names' ensures Names(bounds', names', f) {
      if f in names { assert Names(bounds, names, f); }
    }
    forall n | n in bounds' ensures IsNamed(bounds', names', n) {
      if n in bounds { assert IsNamed(bounds, names, n); }
    }
    forall n | n in bounds ensures bounds[n] != Bound(S, k) { assert IsNamed(bounds, names, n); }
  }

  /** The name of a constraint: the one it has, or a new one with its definition. */
  ghost predicate NameUsed(b0: Bounds, asserted0: seq<Form>, bounds: Bounds, asserted: seq<Form>, name: Form,
                           S: seq<Form>, k: nat) {
    && name in bounds && bounds[name] == Bound(S, k)
    && if name in b0 then bounds == b0 && asserted == asserted0
       else (forall n | n in b0 :: b0[n] != Bound(S, k)) && bounds == b0[name := Bound(S, k)]
            && asserted == asserted0 + [Implies(name, AtMost(S, k))]
  }

  class RC2 {
    const solver: Context
    var bounds: Bounds
    var names: map<Form, Form>
    var minCost: nat

    ghost predicate Valid(p: Input)
      reads this, solver
    {
      && solver.Valid() && p.n0 <= solver.next && WellFormed(p)
      && AllNamed(bounds, p.n0, solver.next)
      && Faithful(p, bounds, solver.asserted)
      && NamesExact(bounds, names) == true
    }

    constructor (s: Context)
      ensures solver == s && bounds == map[] && names == map[]
    {
      solver, bounds, names := s, map[], map[];
    }

    /** The name of "at most k of S", fresh unless the constraint has one already. */
    method AtMostName(S: seq<Form>, k: nat, ghost p: Input) returns (name: Form)
      requires Valid(p) == true && AllBelow(S, solver.next) && forall i | 0 <= i < |S| :: Member(S[i], bounds, p.n0)
      modifies this`bounds, this`names, solver`asserted, solver`next
      ensures Valid(p) == true && old(solver.next) <= solver.next
      ensures name in bounds && bounds[name] == Bound(S, k)
      ensures Grows(old(bounds), bounds, old(solver.next))
      ensures NameUsed(old(bounds), old(solver.asserted), bounds, solver.asserted, name, S, k) == true
    {
      var fml := AtMost(S, k);
      if fml in names {
        assert Names(bounds, names, fml);
        return names[fml];
      }
      NewName(p, bounds, solver.asserted, S, k, solver.next);
      NamesGrow(bounds, names, Var(solver.next), S, k);
      ghost var next := solver.next;
      name := solver.FreshVar();
      AllBelowMono(S, next, solver.next);
      assert Below(fml, solver.next);
      solver.Assert(Implies(name, fml));
      bounds := bounds[name := Bound(S, k)];
      names := names[fml := name];
    }

    /** Takes cores out of the weights until the rest can be satisfied together. */
    method GetCores(ws: Dict, ghost p: Input) returns (cores: seq<Core>, isUnsat: bool, model: Assignment)
      requires Valid(p) == true && AllWeighable(ws.m, bounds, p.n0) == true
      requires Conserves(p, bounds, ws.m, [], minCost) == true
      modifies ws, solver`calls
      ensures Valid(p) == true && AllWeighable(ws.m, bounds, p.n0) == true
      ensures isUnsat <==> !Satisfiable(p.hard)
      ensures !isUnsat ==> Conserves(p, bounds, ws.m, cores, minCost) == true
      ensures forall i | 0 <= i < |cores| :: GoodCore(p, bounds, cores[i]) == true
      ensures !isUnsat ==> Models(model, solver.asserted) && forall f | f in ws.m :: Eval(f, model)
      ensures !isUnsat && cores == [] ==> ws.m == old(ws.m)
    {
      cores, isUnsat, model := [], false, {};
      while true
        invariant Valid(p) == true && AllWeighable(ws.m, bounds, p.n0) == true
        invariant Conserves(p, bounds, ws.m, cores, minCost) == true
        invariant forall i | 0 <= i < |cores| :: GoodCore(p, bounds, cores[i]) == true
        invariant cores == [] ==> ws.m == old(ws.m)
        decreases |ws.m.Keys|
      {
        var assumptions := Listed(ws.m.Keys);
        var ans := solver.Check(assumptions);
        if ans.Sat? {
          model := ans.model;
          assert Models(model, p.hard);
          return;
        }
        var core := ans.core;
        if |core| == 0 {
          EmptyCore(p, bounds, solver.asserted, solver.next);
          isUnsat := true;
          return;
        }
        var w := Subtract(ws, core, cores, p);
        cores := cores + [Core(core, w)];
      }
    }

    /** Takes one core out of the weights. */
    method Subtract(ws: Dict, core: seq<Form>, ghost cores: seq<Core>, ghost p: Input) returns (w: nat)
      requires Valid(p) == true && AllWeighable(ws.m, bounds, p.n0) == true
      requires Conserves(p, bounds, ws.m, cores, minCost) == true
      requires |core| > 0 && Distinct(core) && Refutes(core, solver.asserted) && forall f | f in core :: f in ws.m
      modifies ws
      ensures Valid(p) == true && AllWeighable(ws.m, bounds, p.n0) == true && |ws.m.Keys| < |old(ws.m).Keys|
      ensures Conserves(p, bounds, ws.m, cores + [Core(core, w)], minCost) == true
      ensures GoodCore(p, bounds, Core(core, w)) == true
      ensures ws.m == SubtractAll(old(ws.m), core, w)
      ensures (forall f | f in core :: w <= old(ws.m)[f]) && exists f :: f in core && old(ws.m)[f] == w
    {
      CoreIsGood(p, bounds, solver.asserted, core);
      ghost var before := ws.m;
      w := TakeOut(ws, core);
      TakeCore(p, bounds, before, cores, minCost, core, w);
    }

    /** One member of a core; fs are the members before it. */
    method WeakenMember(ws: Dict, f: Form, w: nat, ghost p: Input, ghost b0: Bounds, ghost m0: Weights,
                        ghost n0: nat, ghost fs: seq<Form>)
      requires Valid(p) == true && AllWeighable(ws.m, bounds, p.n0) == true && w > 0 && Weighable(f, b0, p.n0)
      requires p.n0 <= n0 <= solver.next && Grows(b0, bounds, n0)
      requires AllRepaid(p, b0, m0, bounds, ws.m, w, fs)
      modifies ws, this`bounds, this`names, solver`asserted, solver`next
      ensures Valid(p) == true && AllWeighable(ws.m, bounds, p.n0) == true
      ensures n0 <= solver.next && Grows(b0, bounds, n0)
      ensures AllRepaid(p, b0, m0, bounds, ws.m, w, fs + [f]) == true
    {
      GrowsPenalty(f, b0, bounds, p.n0, n0, {});
      if f in bounds && bounds[f].k + 1 < |bounds[f].S| {
        ghost var b1, m1, n1 := bounds, ws.m, solver.next;
        var b := bounds[f];
        BoundUsable(p, bounds, f, solver.next);
        var name := AtMostName(b.S, b.k + 1, p);
        ws.Add(name, w);
        RepayOne(p, b0, m0, b1, m1, bounds, w, fs, f, name, n0, n1);
        GrowsTrans(b0, b1, bounds, n0, n1);
      } else {
        RepayNone(p, b0, m0, bounds, ws.m, w, fs, f);
      }
    }

    /** The loop over a core's members: those with a bound come back with one more allowed. */
    method WeakenMembers(ws: Dict, core: Core, ghost p: Input)
      requires Valid(p) == true && AllWeighable(ws.m, bounds, p.n0) == true && GoodCore(p, bounds, core)
      modifies ws, this`bounds, this`names, solver`asserted, solver`next
      ensures Valid(p) == true && AllWeighable(ws.m, bounds, p.n0) == true
      ensures old(solver.next) <= solver.next && Grows(old(bounds), bounds, old(solver.next))
      ensures AllRepaid(p, old(bounds), old(ws.m), bounds, ws.m, core.w, core.fs) == true
    {
      ghost var b0, m0, n0 := bounds, ws.m, solver.next;
      var fs := core.fs;
      for i := 0 to |fs|
        invariant Valid(p) == true && AllWeighable(ws.m, bounds, p.n0) == true
        invariant n0 <= solver.next && Grows(b0, bounds, n0)
        invariant AllRepaid(p, b0, m0, bounds, ws.m, core.w, fs[..i]) == true
      {
        assert fs[..i + 1] == fs[..i] + [fs[i]];
        WeakenMember(ws, fs[i], core.w, p, b0, m0, n0, fs[..i]);
      }
      assert fs[..|fs|] == fs;
    }

    /** Pays for one core: its members come back weakened, and so does the constraint that
        at most one of them be. */
    method UpdateBounds(ws: Dict, core: Core, ghost rest: seq<Core>, ghost paid: nat, ghost p: Input)
      requires Valid(p) == true && AllWeighable(ws.m, bounds, p.n0) == true && GoodCore(p, bounds, core)
      requires forall i | 0 <= i < |rest| :: GoodCore(p, bounds, rest[i])
      requires Conserves(p, bounds, ws.m, [core] + rest, paid)
      modifies ws, this`bounds, this`names, solver`asserted, solver`next
      ensures Valid(p) == true && AllWeighable(ws.m, bounds, p.n0) == true
      ensures Conserves(p, bounds, ws.m, rest, paid + core.w) == true
      ensures forall i | 0 <= i < |rest| :: GoodCore(p, bounds, rest[i])
    {
      ghost var b0, m0, n0 := bounds, ws.m, solver.next;
      WeakenMembers(ws, core, p);
      ghost var b1, m1, n1 := bounds, ws.m, solver.next;
      NegatedUsable(p, core.fs, b0, bounds, n0, n1);
      var name := AtMostName(Negated(core.fs), 1, p);
      ws.Add(name, core.w);
      PayCore(p, b0, m0, b1, m1, bounds, core, rest, name, paid, n0, n1);
      GrowsTrans(b0, b1, bounds, n0, n1);
      forall i | 0 <= i < |rest| ensures GoodCore(p, bounds, rest[i]) { GrowsGoodCore(p, rest[i], b0, bounds, n0); }
    }

    /** Pays for the cores of one round. */
    method PayCores(ws: Dict, cores: seq<Core>, ghost p: Input)
      requires Valid(p) == true && AllWeighable(ws.m, bounds, p.n0) == true
      requires Conserves(p, bounds, ws.m, cores, minCost)
      requires forall i | 0 <= i < |cores| :: GoodCore(p, bounds, cores[i])
      modifies ws, this`bounds, this`names, this`minCost, solver`asserted, solver`next
      ensures Valid(p) == true && AllWeighable(ws.m, bounds, p.n0) == true
      ensures Conserves(p, bounds, ws.m, [], minCost) == true
      ensures minCost >= old(minCost) + |cores|
    {
      assert cores[0..] == cores;
      for i := 0 to |cores|
        invariant Valid(p) == true && AllWeighable(ws.m, bounds, p.n0) == true
        invariant Conserves(p, bounds, ws.m, cores[i..], minCost) == true
        invariant forall j | i <= j < |cores| :: GoodCore(p, bounds, cores[j])
        invariant minCost >= old(minCost) + i
      {
        assert cores[i..] == [cores[i]] + cores[i + 1..];
        ghost var paid := minCost;
        minCost := minCost + cores[i].w;
        UpdateBounds(ws, cores[i], cores[i + 1..], paid, p);
      }
      assert cores[|cores|..] == [];
    }

    /** The whole procedure.  It returns the least weight that any model of the hard
        constraints falsifies, with a set of input constraints that attains it. */
    method MaxSat(ws: Dict, ghost p: Input) returns (r: Outcome)
      requires solver.Valid() && bounds == map[] && names == map[] && p.n0 <= solver.next
      requires solver.asserted == p.hard && ws.m == p.ws && WellFormed(p)
      modifies this, ws, solver
      ensures r == HardUnsat <==> !Satisfiable(p.hard)
      ensures r.Best? ==> forall a | Models(a, p.hard) :: r.cost <= FalsifiedWeight(p.ws, a)
      ensures r.Best? ==> exists a :: Models(a, p.hard) && FalsifiedWeight(p.ws, a) == r.cost
                                      && forall f :: f in r.falses <==> f in p.ws && !Eval(f, a)
    {
      minCost := 0;
      var ws0 := ws.m;
      ghost var some: Assignment :| Satisfiable(p.hard) ==> Models(some, p.hard);
      InitiallyConserved(p);
      while true
        invariant Valid(p) == true && AllWeighable(ws.m, bounds, p.n0) == true
        invariant Conserves(p, bounds, ws.m, [], minCost) == true
        invariant Satisfiable(p.hard) ==> minCost <= FalsifiedWeight(p.ws, some)
        decreases FalsifiedWeight(p.ws, some) - minCost
      {
        var cores, isUnsat, model := GetCores(ws, p);
        if isUnsat {
          return HardUnsat;
        }
        if |cores| == 0 {
          ModelIsOptimal(p, bounds, ws.m, minCost, solver.asserted, solver.next, model);
          return Best(minCost, set f | f in ws0 && !Eval(f, model));
        }
        PayCores(ws, cores, p);
        LowerBound(p, bounds, ws.m, [], minCost, solver.next, some);
      }
    }
  }
}
