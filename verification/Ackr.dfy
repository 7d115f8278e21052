/** Ackermannization as a transformation of terms: the substitution of constants for
    function applications and array selects, the congruence lemmas, and why the result has
    a model exactly when the original does. */
module Ackr {
  import opened Terms

  // ---------------------------------------------------------------- what is abstracted

  /** Terms are grouped by what they apply: a function, or an array constant selected from. */
  datatype Key = FunKey(f: nat) | ArrayKey(c: nat) | NoKey

  function KeyOf(t: Term): Key {
    if t.App? && |t.args| > 0 then FunKey(t.f)
    else if t.Op? && t.o == Select && |t.args| > 0 && t.args[0].Const? then ArrayKey(t.args[0].c)
    else NoKey
  }

  /** The correspondence between abstracted terms and their constants. */
  datatype Info = Info(t2c: map<Term, nat>, c2t: map<nat, Term>)

  /** The two maps are inverse, over candidate terms and constants from lo on. */
  ghost predicate Bijection(info: Info, lo: nat) {
    && (forall t | t in info.t2c :: info.t2c[t] in info.c2t && info.c2t[info.t2c[t]] == t)
    && (forall c | c in info.c2t :: c >= lo && info.c2t[c] in info.t2c && info.t2c[info.c2t[c]] == c)
    && (forall t | t in info.t2c :: KeyOf(t) != NoKey)
  }

  /** The substitution, outermost abstracted terms first. */
  function Abstract(t: Term, s: map<Term, nat>): Term
    decreases t, 1
  {
    if t in s then Const(s[t])
    else
      match t
      case App(f, args) => App(f, AbstractAll(args, s))
      case Op(o, args) => Op(o, AbstractAll(args, s))
      case _ => t
  }

  function AbstractAll(ts: seq<Term>, s: map<Term, nat>): (r: seq<Term>)
    ensures |r| == |ts|
    ensures forall i | 0 <= i < |ts| :: r[i] == Abstract(ts[i], s)
    decreases ts, 0
  {
    if |ts| == 0 then [] else [Abstract(ts[0], s)] + AbstractAll(ts[1..], s)
  }

  /** The values of a sequence of terms once abstracted. */
  function Values(th: Theory, s: map<Term, nat>, m: Model, ts: seq<Term>): (vs: seq<Value>)
    ensures |vs| == |ts|
  {
    EvalAll(th, AbstractAll(ts, s), m)
  }

  /** The values of a term's abstracted arguments. */
  function ArgValues(th: Theory, s: map<Term, nat>, m: Model, t: Term): seq<Value> {
    Values(th, s, m, Kids(t))
  }

  // ---------------------------------------------------------------- congruence lemmas

  ghost predicate Congruent(th: Theory, s: map<Term, nat>, m: Model, t1: Term, t2: Term)
    requires t1 in s && t2 in s
  {
    ArgValues(th, s, m, t1) == ArgValues(th, s, m, t2) ==> ConstOf(m, s[t1]) == ConstOf(m, s[t2])
  }

  /** Every two abstracted terms of one group are congruent in m. */
  ghost predicate AllCongruent(th: Theory, s: map<Term, nat>, m: Model) {
    forall t1, t2 | t1 in s && t2 in s && KeyOf(t1) == KeyOf(t2) :: Congruent(th, s, m, t1, t2)
  }

  /** Provably distinct: two different literals. */
  predicate AreDistinct(x: Term, y: Term) {
    x.Val? && y.Val? && x != y
  }

  predicate SomeDistinct(xs: seq<Term>, ys: seq<Term>)
    requires |xs| == |ys|
  {
    exists i | 0 <= i < |xs| :: AreDistinct(xs[i], ys[i])
  }

  /** The equations between arguments that are not the same already. */
  function Equations(xs: seq<Term>, ys: seq<Term>): seq<Term>
    requires |xs| == |ys|
  {
    if |xs| == 0 then []
    else
      var n := |xs| - 1;
      Equations(xs[..n], ys[..n]) + if xs[n] == ys[n] then [] else [Op(Eq, [xs[n], ys[n]])]
  }

  /** The equations are those between arguments that differ. */
  lemma {:induction false} EquationsListed(xs: seq<Term>, ys: seq<Term>)
    requires |xs| == |ys|
    ensures forall e | e in Equations(xs, ys) ::
              exists i :: 0 <= i < |xs| && xs[i] != ys[i] && e == Op(Eq, [xs[i], ys[i]])
    ensures forall i | 0 <= i < |xs| && xs[i] != ys[i] :: Op(Eq, [xs[i], ys[i]]) in Equations(xs, ys)
  {
    if |xs| > 0 { EquationsListed(xs[..|xs| - 1], ys[..|xs| - 1]); }
  }

  /** The lemma for two terms, before and after the substitution. */
  function Congruence(t1: Term, t2: Term, s: map<Term, nat>): Term
    requires t1 in s && t2 in s && |Kids(t1)| == |Kids(t2)|
  {
    Op(Implies, [Op(And, Equations(Kids(t1), Kids(t2))), Op(Eq, [Const(s[t1]), Const(s[t2])])])
  }

  function AckLemma(t1: Term, t2: Term, s: map<Term, nat>): Term
    requires t1 in s && t2 in s && |Kids(t1)| == |Kids(t2)|
  {
    Abstract(Congruence(t1, t2, s), s)
  }

  lemma SnocEqual(us: seq<Value>, u: Value, vs: seq<Value>, v: Value)
    ensures us + [u] == vs + [v] <==> us == vs && u == v
  {
    if us + [u] == vs + [v] {
      assert us == (us + [u])[..|us|] && vs == (vs + [v])[..|vs|];
      assert u == (us + [u])[|us|] && v == (vs + [v])[|vs|];
    }
  }

  lemma ValuesSnoc(th: Theory, s: map<Term, nat>, m: Model, ts: seq<Term>, t: Term)
    ensures Values(th, s, m, ts + [t]) == Values(th, s, m, ts) + [Eval(th, Abstract(t, s), m)]
  {}

  lemma AllTrueSnoc(vs: seq<Value>, v: Value)
    ensures AllTrue(vs + [v]) <==> AllTrue(vs) && v == TRUE
  {
    if AllTrue(vs + [v]) {
      forall i | 0 <= i < |vs| ensures vs[i] == TRUE { assert (vs + [v])[i] == TRUE; }
      assert (vs + [v])[|vs|] == TRUE;
    }
  }

  lemma {:induction false} EquationsHold(th: Theory, s: map<Term, nat>, m: Model, xs: seq<Term>, ys: seq<Term>)
    requires |xs| == |ys| && forall t | t in s :: KeyOf(t) != NoKey
    ensures AllTrue(Values(th, s, m, Equations(xs, ys))) <==> Values(th, s, m, xs) == Values(th, s, m, ys)
    decreases |xs|
  {
    if |xs| > 0 {
      var n := |xs| - 1;
      var xs', x, ys', y := xs[..n], xs[n], ys[..n], ys[n];
      assert xs == xs' + [x] && ys == ys' + [y];
      EquationsHold(th, s, m, xs', ys');
      ValuesSnoc(th, s, m, xs', x);
      ValuesSnoc(th, s, m, ys', y);
      EquationsStep(th, s, m, Equations(xs', ys'), x, y);
      SnocEqual(Values(th, s, m, xs'), Eval(th, Abstract(x, s), m), Values(th, s, m, ys'), Eval(th, Abstract(y, s), m));
    }
  }

  lemma EquationsStep(th: Theory, s: map<Term, nat>, m: Model, es: seq<Term>, x: Term, y: Term)
    requires forall t | t in s :: KeyOf(t) != NoKey
    ensures AllTrue(Values(th, s, m, es + if x == y then [] else [Op(Eq, [x, y])])) <==>
            AllTrue(Values(th, s, m, es)) && Eval(th, Abstract(x, s), m) == Eval(th, Abstract(y, s), m)
  {
    if x == y {
      assert es + [] == es;
    } else {
      EquationHolds(th, s, m, x, y);
      ValuesSnoc(th, s, m, es, Op(Eq, [x, y]));
      AllTrueSnoc(Values(th, s, m, es), Eval(th, Abstract(Op(Eq, [x, y]), s), m));
    }
  }

  lemma EquationHolds(th: Theory, s: map<Term, nat>, m: Model, x: Term, y: Term)
    requires forall t | t in s :: KeyOf(t) != NoKey
    ensures Eval(th, Abstract(Op(Eq, [x, y]), s), m)
            == Truth(Eval(th, Abstract(x, s), m) == Eval(th, Abstract(y, s), m))
  {
    var e := Op(Eq, [x, y]);
    assert KeyOf(e) == NoKey;
    assert Abstract(e, s) == Op(Eq, AbstractAll([x, y], s));
    var vs := EvalAll(th, AbstractAll([x, y], s), m);
    assert vs[0] == Eval(th, AbstractAll([x, y], s)[0], m) && vs[1] == Eval(th, AbstractAll([x, y], s)[1], m);
  }

  /** An Ackermann lemma says exactly that its two terms are congruent. */
  lemma AckLemmaMeaning(th: Theory, s: map<Term, nat>, m: Model, t1: Term, t2: Term)
    requires t1 in s && t2 in s && |Kids(t1)| == |Kids(t2)| && forall t | t in s :: KeyOf(t) != NoKey
    ensures Holds(th, AckLemma(t1, t2, s), m) <==> Congruent(th, s, m, t1, t2)
  {
    var xs, ys := Kids(t1), Kids(t2);
    var lhs, rhs := Op(And, Equations(xs, ys)), Op(Eq, [Const(s[t1]), Const(s[t2])]);
    EquationsHold(th, s, m, xs, ys);
    ConjunctionHolds(th, s, m, Equations(xs, ys));
    EquationHolds(th, s, m, Const(s[t1]), Const(s[t2]));
    assert KeyOf(Const(s[t1])) == NoKey && KeyOf(Const(s[t2])) == NoKey;
    ImplicationHolds(th, s, m, lhs, rhs);
  }

  lemma ConjunctionHolds(th: Theory, s: map<Term, nat>, m: Model, es: seq<Term>)
    requires forall t | t in s :: KeyOf(t) != NoKey
    ensures Holds(th, Abstract(Op(And, es), s), m) <==> AllTrue(Values(th, s, m, es))
  {
    assert KeyOf(Op(And, es)) == NoKey;
    assert Abstract(Op(And, es), s) == Op(And, AbstractAll(es, s));
  }

  lemma ImplicationHolds(th: Theory, s: map<Term, nat>, m: Model, lhs: Term, rhs: Term)
    requires forall t | t in s :: KeyOf(t) != NoKey
    ensures Holds(th, Abstract(Op(Implies, [lhs, rhs]), s), m) <==>
            (Holds(th, Abstract(lhs, s), m) ==> Holds(th, Abstract(rhs, s), m))
  {
    var cg := Op(Implies, [lhs, rhs]);
    assert KeyOf(cg) == NoKey;
    assert Abstract(cg, s) == Op(Implies, AbstractAll([lhs, rhs], s));
    var vs := EvalAll(th, AbstractAll([lhs, rhs], s), m);
    assert vs[0] == Eval(th, Abstract(lhs, s), m) && vs[1] == Eval(th, Abstract(rhs, s), m);
  }

  /** Where the code omits a lemma because two arguments are distinct literals, none is
      needed. */
  lemma DistinctArguments(th: Theory, s: map<Term, nat>, m: Model, t1: Term, t2: Term)
    requires t1 in s && t2 in s && |Kids(t1)| == |Kids(t2)| && forall t | t in s :: KeyOf(t) != NoKey
    requires SomeDistinct(Kids(t1), Kids(t2))
    ensures Congruent(th, s, m, t1, t2)
  {
    var i :| 0 <= i < |Kids(t1)| && AreDistinct(Kids(t1)[i], Kids(t2)[i]);
    LiteralArgument(th, s, m, t1, i);
    LiteralArgument(th, s, m, t2, i);
  }

  lemma LiteralArgument(th: Theory, s: map<Term, nat>, m: Model, t: Term, i: nat)
    requires i < |Kids(t)| && Kids(t)[i].Val? && forall t | t in s :: KeyOf(t) != NoKey
    ensures ArgValues(th, s, m, t)[i] == Kids(t)[i].v
  {
    assert KeyOf(Kids(t)[i]) == NoKey;
    assert AbstractAll(Kids(t), s)[i] == Kids(t)[i];
  }

  /** All arguments that count are literals. */
  predicate LiteralArgs(t: Term) {
    KeyOf(t) != NoKey && forall i | (if KeyOf(t).ArrayKey? then 1 else 0) <= i < |Kids(t)| :: Kids(t)[i].Val?
  }

  /** Two different terms of one group with literal arguments need no lemma either. */
  lemma LiteralsCongruent(th: Theory, s: map<Term, nat>, m: Model, t1: Term, t2: Term)
    requires t1 in s && t2 in s && |Kids(t1)| == |Kids(t2)| && forall t | t in s :: KeyOf(t) != NoKey
    requires KeyOf(t1) == KeyOf(t2) && LiteralArgs(t1) && LiteralArgs(t2)
    ensures Congruent(th, s, m, t1, t2)
  {
    if t1 != t2 {
      var xs, ys := Kids(t1), Kids(t2);
      assert xs != ys;
      var i :| 0 <= i < |xs| && xs[i] != ys[i];
      assert AreDistinct(xs[i], ys[i]);
      DistinctArguments(th, s, m, t1, t2);
    }
  }

  // ---------------------------------------------------------------- original to reduced

  /** A model of the original, extended by the values of the abstracted terms. */
  function Extended(th: Theory, info: Info, m: Model): Model {
    m.(consts := m.consts + map c | c in info.c2t :: Eval(th, info.c2t[c], m))
  }

  lemma {:induction false} EvalAbstract(th: Theory, info: Info, lo: nat, m: Model, t: Term)
    requires Bijection(info, lo) && Below(t, lo)
    ensures Eval(th, Abstract(t, info.t2c), Extended(th, info, m)) == Eval(th, t, m)
    decreases t, 1
  {
    var m' := Extended(th, info, m);
    if t in info.t2c {
      assert ConstOf(m', info.t2c[t]) == Eval(th, t, m);
    } else {
      match t
      case Const(c) => assert c !in info.c2t; assert ConstOf(m', c) == ConstOf(m, c);
      case App(f, args) => EvalAbstractAll(th, info, lo, m, args); assert FunOf(m', f) == FunOf(m, f);
      case Op(o, args) => EvalAbstractAll(th, info, lo, m, args);
      case AsArray(f) => assert FunOf(m', f) == FunOf(m, f);
      case _ =>
    }
  }

  lemma {:induction false} EvalAbstractAll(th: Theory, info: Info, lo: nat, m: Model, ts: seq<Term>)
    requires Bijection(info, lo) && AllBelow(ts, lo)
    ensures EvalAll(th, AbstractAll(ts, info.t2c), Extended(th, info, m)) == EvalAll(th, ts, m)
    decreases ts, 0
  {
    if |ts| > 0 {
      EvalAbstract(th, info, lo, m, ts[0]);
      EvalAbstractAll(th, info, lo, m, ts[1..]);
      var as_ := AbstractAll(ts, info.t2c);
      assert as_[0] == Abstract(ts[0], info.t2c) && as_[1..] == AbstractAll(ts[1..], info.t2c);
    }
  }

  /** Every model of the original formulas extends to one of the abstracted formulas in
      which all abstracted terms of a group are congruent. */
  lemma ForwardSound(th: Theory, info: Info, lo: nat, formulas: seq<Term>, m: Model)
    requires Bijection(info, lo) && AllBelow(formulas, lo) && AllHold(th, formulas, m)
    requires forall t | t in info.t2c :: Below(t, lo)
    ensures AllHold(th, AbstractAll(formulas, info.t2c), Extended(th, info, m))
    ensures AllCongruent(th, info.t2c, Extended(th, info, m))
  {
    var s, m' := info.t2c, Extended(th, info, m);
    ForwardFormulas(th, info, lo, formulas, m);
    forall t1, t2 | t1 in s && t2 in s && KeyOf(t1) == KeyOf(t2) ensures Congruent(th, s, m', t1, t2) {
      ForwardTerm(th, info, lo, m, t1);
      ForwardTerm(th, info, lo, m, t2);
    }
  }

  lemma ForwardFormulas(th: Theory, info: Info, lo: nat, formulas: seq<Term>, m: Model)
    requires Bijection(info, lo) && AllBelow(formulas, lo) && AllHold(th, formulas, m)
    ensures AllHold(th, AbstractAll(formulas, info.t2c), Extended(th, info, m))
  {
    var as_ := AbstractAll(formulas, info.t2c);
    forall a | a in as_ ensures Holds(th, a, Extended(th, info, m)) {
      var i :| 0 <= i < |as_| && as_[i] == a;
      assert formulas[i] in formulas;
      EvalAbstract(th, info, lo, m, formulas[i]);
    }
  }

  lemma ForwardTerm(th: Theory, info: Info, lo: nat, m: Model, t: Term)
    requires Bijection(info, lo) && t in info.t2c && Below(t, lo)
    ensures ConstOf(Extended(th, info, m), info.t2c[t]) == Eval(th, t, m)
    ensures ArgValues(th, info.t2c, Extended(th, info, m), t) == EvalAll(th, Kids(t), m)
  {
    EvalAbstractAll(th, info, lo, m, Kids(t));
  }

  // ---------------------------------------------------------------- reduced to original

  ghost predicate Active(s: map<Term, nat>, k: Key) {
    exists t | t in s :: KeyOf(t) == k
  }

  /** No formula is an array constant, and no function symbol lacks arguments. */
  ghost predicate WellFormed(formulas: seq<Term>) {
    && (forall t | t in SubtermsAll(formulas) && t.App? :: |t.args| > 0)
    && (forall f, t | f in formulas && f.Const? && t in SubtermsAll(formulas) :: KeyOf(t) != ArrayKey(f.c))
    && (forall t1, t2 | t1 in SubtermsAll(formulas) && t2 in SubtermsAll(formulas) && KeyOf(t1) == KeyOf(t2) != NoKey ::
          |Kids(t1)| == |Kids(t2)|)
  }

  /** What may be abstracted of the terms S: all applications of a function that is not used
      as an array, and all selects from an array constant that occurs nowhere else. */
  ghost predicate Separated(S: set<Term>, s: map<Term, nat>) {
    && s.Keys <= S
    && (forall t | t in S && KeyOf(t).FunKey? && Active(s, KeyOf(t)) :: t in s)
    && (forall f | AsArray(f) in S :: !Active(s, FunKey(f)))
    && (forall t, i | t in S && 0 <= i < |Kids(t)| && Kids(t)[i].Const? && Active(s, ArrayKey(Kids(t)[i].c)) ::
          t in s && i == 0 && KeyOf(t) == ArrayKey(Kids(t)[i].c))
  }

  /** m interprets the original's symbols so that abstracted terms get the values that
      their constants have in the reduced model m'. */
  ghost predicate Rebuilt(th: Theory, info: Info, m': Model, m: Model) {
    RebuiltRest(info, m', m) && RebuiltFuns(th, info, m', m) && RebuiltArrays(th, info, m', m)
  }

  ghost predicate RebuiltRest(info: Info, m': Model, m: Model) {
    && (forall c | c !in info.c2t && !Active(info.t2c, ArrayKey(c)) :: ConstOf(m, c) == ConstOf(m', c))
    && (forall f | !Active(info.t2c, FunKey(f)) :: FunOf(m, f) == FunOf(m', f))
  }

  ghost predicate RebuiltFuns(th: Theory, info: Info, m': Model, m: Model) {
    forall t | t in info.t2c && KeyOf(t).FunKey? ::
      FunOf(m, t.f)(ArgValues(th, info.t2c, m', t)) == ConstOf(m', info.t2c[t])
  }

  ghost predicate RebuiltArrays(th: Theory, info: Info, m': Model, m: Model) {
    forall t | t in info.t2c && KeyOf(t).ArrayKey? :: RebuiltSelection(th, info, m', m, t)
  }

  ghost predicate RebuiltSelection(th: Theory, info: Info, m': Model, m: Model, t: Term)
    requires t in info.t2c && KeyOf(t).ArrayKey?
  {
    th.select(ConstOf(m, KeyOf(t).c), ArgValues(th, info.t2c, m', t)[1..]) == ConstOf(m', info.t2c[t])
  }

  lemma RebuiltApp(th: Theory, info: Info, S: set<Term>, m': Model, m: Model, t: Term)
    requires Separated(S, info.t2c) && Rebuilt(th, info, m', m) && t in S && t.App? && |t.args| > 0
    requires EvalAll(th, t.args, m) == EvalAll(th, AbstractAll(t.args, info.t2c), m')
    ensures Eval(th, t, m) == Eval(th, Abstract(t, info.t2c), m')
  {
    if t !in info.t2c { assert FunOf(m, t.f) == FunOf(m', t.f); }
  }

  lemma RebuiltSelect(th: Theory, info: Info, m': Model, m: Model, t: Term)
    requires Rebuilt(th, info, m', m) && t in info.t2c && KeyOf(t).ArrayKey?
    requires EvalAll(th, t.args[1..], m) == EvalAll(th, AbstractAll(t.args[1..], info.t2c), m')
    ensures Eval(th, t, m) == Eval(th, Abstract(t, info.t2c), m')
  {
    assert RebuiltSelection(th, info, m', m, t);
    EvalAllTail(th, t.args, m);
    var as_ := AbstractAll(t.args, info.t2c);
    assert as_[1..] == AbstractAll(t.args[1..], info.t2c);
    EvalAllTail(th, as_, m');
  }

  /** In a rebuilt model every original term has the value of its abstraction. */
  lemma {:induction false} RebuiltEval(th: Theory, info: Info, lo: nat, S: set<Term>, m': Model, m: Model, t: Term)
    requires Bijection(info, lo) && Closed(S) && SetBelow(S, lo) && Separated(S, info.t2c) && Rebuilt(th, info, m', m)
    requires t in S && !(t.Const? && Active(info.t2c, ArrayKey(t.c)))
    requires forall u | u in S && u.App? :: |u.args| > 0
    ensures Eval(th, t, m) == Eval(th, Abstract(t, info.t2c), m')
    decreases t, 1
  {
    var s := info.t2c;
    match t
    case Const(c) =>
      assert KeyOf(t) == NoKey && Below(t, lo);
    case App(f, args) =>
      RebuiltEvalAll(th, info, lo, S, m', m, t, args);
      RebuiltApp(th, info, S, m', m, t);
    case Op(o, args) =>
      if t in s {
        RebuiltEvalAll(th, info, lo, S, m', m, t, args[1..]);
        RebuiltSelect(th, info, m', m, t);
      } else {
        RebuiltEvalAll(th, info, lo, S, m', m, t, args);
      }
    case AsArray(f) =>
      assert KeyOf(t) == NoKey;
    case _ =>
      assert KeyOf(t) == NoKey;
  }

  lemma EvalAllTail(th: Theory, ts: seq<Term>, m: Model)
    requires |ts| > 0
    ensures EvalAll(th, ts, m)[1..] == EvalAll(th, ts[1..], m)
  {}

  lemma {:induction false} RebuiltEvalAll(th: Theory, info: Info, lo: nat, S: set<Term>, m': Model, m: Model,
                                          t: Term, ts: seq<Term>)
    requires Bijection(info, lo) && Closed(S) && SetBelow(S, lo) && Separated(S, info.t2c) && Rebuilt(th, info, m', m)
    requires forall u | u in S && u.App? :: |u.args| > 0
    requires t in S && forall k | k in ts :: k in S && !(k.Const? && Active(info.t2c, ArrayKey(k.c)))
    ensures EvalAll(th, ts, m) == EvalAll(th, AbstractAll(ts, info.t2c), m')
    decreases ts, 0
  {
    if |ts| > 0 {
      RebuiltEval(th, info, lo, S, m', m, ts[0]);
      RebuiltEvalAll(th, info, lo, S, m', m, t, ts[1..]);
      var as_ := AbstractAll(ts, info.t2c);
      assert as_[0] == Abstract(ts[0], info.t2c) && as_[1..] == AbstractAll(ts[1..], info.t2c);
    }
  }

  /** A rebuilt model satisfies the original formulas. */
  lemma BackwardSound(th: Theory, info: Info, lo: nat, formulas: seq<Term>, m': Model, m: Model)
    requires Bijection(info, lo) && AllBelow(formulas, lo) && WellFormed(formulas)
    requires Separated(SubtermsAll(formulas), info.t2c) && Rebuilt(th, info, m', m)
    requires AllHold(th, AbstractAll(formulas, info.t2c), m')
    ensures AllHold(th, formulas, m)
  {
    var S := SubtermsAll(formulas);
    SubtermsAllClosed(formulas);
    SubtermsAllBelow(formulas, lo);
    var as_ := AbstractAll(formulas, info.t2c);
    forall f | f in formulas ensures Holds(th, f, m) {
      var i :| 0 <= i < |formulas| && formulas[i] == f;
      assert as_[i] in as_ && as_[i] == Abstract(f, info.t2c);
      assert !(f.Const? && Active(info.t2c, ArrayKey(f.c))) by { assert info.t2c.Keys <= S; }
      RebuiltEval(th, info, lo, S, m', m, f);
    }
  }
}
