/** Propositional formulas over numbered variables, as the MaxSAT programs build them.

    An SMT atom is a variable here: the valuations the theory admits are one more
    propositional constraint among the hard ones.  An assignment is the set of the
    variables it makes true. */
module Prop {

  type Assignment = set<nat>

  datatype Form =
    | Bot
    | Top
    | Var(x: nat)
    | Not(f: Form)
    | And(l: Form, r: Form)
    | Or(l: Form, r: Form)
    | Xor(l: Form, r: Form)
    | Implies(l: Form, r: Form)
    | AtMost(fs: seq<Form>, k: nat)

  predicate Eval(f: Form, a: Assignment)
    decreases f
  {
    match f
    case Bot => false
    case Top => true
    case Var(x) => x in a
    case Not(g) => !Eval(g, a)
    case And(l, r) => Eval(l, a) && Eval(r, a)
    case Or(l, r) => Eval(l, a) || Eval(r, a)
    case Xor(l, r) => Eval(l, a) != Eval(r, a)
    case Implies(l, r) => Eval(l, a) ==> Eval(r, a)
    case AtMost(fs, k) => Count(fs, a) <= k
  }

  /** How many of the formulas are true. */
  function Count(fs: seq<Form>, a: Assignment): (n: nat)
    ensures n <= |fs|
    decreases fs
  {
    if |fs| == 0 then 0
    else Count(fs[..|fs| - 1], a) + if Eval(fs[|fs| - 1], a) then 1 else 0
  }

  ghost predicate Models(a: Assignment, fs: seq<Form>) {
    forall f | f in fs :: Eval(f, a)
  }

  ghost predicate Satisfiable(fs: seq<Form>) {
    exists a :: Models(a, fs)
  }

  /** Every variable of f is numbered below n. */
  predicate Below(f: Form, n: nat)
    decreases f
  {
    match f
    case Bot => true
    case Top => true
    case Var(x) => x < n
    case Not(g) => Below(g, n)
    case And(l, r) => Below(l, n) && Below(r, n)
    case Or(l, r) => Below(l, n) && Below(r, n)
    case Xor(l, r) => Below(l, n) && Below(r, n)
    case Implies(l, r) => Below(l, n) && Below(r, n)
    case AtMost(fs, _) => forall i | 0 <= i < |fs| :: Below(fs[i], n)
  }

  predicate AllBelow(fs: seq<Form>, n: nat) {
    forall i | 0 <= i < |fs| :: Below(fs[i], n)
  }

  ghost predicate Agree(a: Assignment, b: Assignment, n: nat) {
    forall v: nat | v < n :: v in a <==> v in b
  }

  lemma {:induction false} BelowMono(f: Form, m: nat, n: nat)
    requires m <= n && Below(f, m)
    ensures Below(f, n)
    decreases f
  {
    match f
    case Bot =>
    case Top =>
    case Var(_) =>
    case Not(g) => BelowMono(g, m, n);
    case And(l, r) => BelowMono(l, m, n); BelowMono(r, m, n);
    case Or(l, r) => BelowMono(l, m, n); BelowMono(r, m, n);
    case Xor(l, r) => BelowMono(l, m, n); BelowMono(r, m, n);
    case Implies(l, r) => BelowMono(l, m, n); BelowMono(r, m, n);
    case AtMost(fs, _) =>
      forall i | 0 <= i < |fs| ensures Below(fs[i], n) { BelowMono(fs[i], m, n); }
  }

  lemma AllBelowMono(fs: seq<Form>, m: nat, n: nat)
    requires m <= n && AllBelow(fs, m)
    ensures AllBelow(fs, n)
  {
    forall i | 0 <= i < |fs| ensures Below(fs[i], n) { BelowMono(fs[i], m, n); }
  }

  /** A formula cannot tell apart assignments that agree on its variables. */
  lemma {:induction false} EvalAgree(f: Form, a: Assignment, b: Assignment, n: nat)
    requires Below(f, n) && Agree(a, b, n)
    ensures Eval(f, a) == Eval(f, b)
    decreases f
  {
    match f
    case Bot =>
    case Top =>
    case Var(_) =>
    case Not(g) => EvalAgree(g, a, b, n);
    case And(l, r) => EvalAgree(l, a, b, n); EvalAgree(r, a, b, n);
    case Or(l, r) => EvalAgree(l, a, b, n); EvalAgree(r, a, b, n);
    case Xor(l, r) => EvalAgree(l, a, b, n); EvalAgree(r, a, b, n);
    case Implies(l, r) => EvalAgree(l, a, b, n); EvalAgree(r, a, b, n);
    case AtMost(fs, _) => CountAgree(fs, a, b, n);
  }

  lemma {:induction false} CountAgree(fs: seq<Form>, a: Assignment, b: Assignment, n: nat)
    requires AllBelow(fs, n) && Agree(a, b, n)
    ensures Count(fs, a) == Count(fs, b)
    decreases fs
  {
    if |fs| != 0 {
      CountAgree(fs[..|fs| - 1], a, b, n);
      EvalAgree(fs[|fs| - 1], a, b, n);
    }
  }

  lemma ModelsAgree(fs: seq<Form>, a: Assignment, b: Assignment, n: nat)
    requires AllBelow(fs, n) && Agree(a, b, n) && Models(a, fs)
    ensures Models(b, fs)
  {
    forall f | f in fs ensures Eval(f, b) { EvalAgree(f, a, b, n); }
  }

  lemma {:induction false} CountConcat(fs: seq<Form>, gs: seq<Form>, a: Assignment)
    ensures Count(fs + gs, a) == Count(fs, a) + Count(gs, a)
    decreases |gs|
  {
    if |gs| == 0 {
      assert fs + gs == fs;
    } else {
      var all := fs + gs;
      assert all[..|all| - 1] == fs + gs[..|gs| - 1];
      CountConcat(fs, gs[..|gs| - 1], a);
    }
  }

  /** Element-wise weaker formulas are true at least as often. */
  lemma {:induction false} CountLe(fs: seq<Form>, a: Assignment, gs: seq<Form>, b: Assignment)
    requires |fs| == |gs|
    requires forall i | 0 <= i < |fs| :: Eval(fs[i], a) ==> Eval(gs[i], b)
    ensures Count(fs, a) <= Count(gs, b)
    decreases |fs|
  {
    if |fs| != 0 { CountLe(fs[..|fs| - 1], a, gs[..|gs| - 1], b); }
  }

  /** Weakening in all places but one raises the count by at most one. */
  lemma {:induction false} CountLeButOne(fs: seq<Form>, a: Assignment, gs: seq<Form>, b: Assignment, j: nat)
    requires |fs| == |gs| && j < |fs|
    requires forall i | 0 <= i < |fs| && i != j :: Eval(fs[i], a) ==> Eval(gs[i], b)
    ensures Count(fs, a) <= Count(gs, b) + 1
    decreases |fs|
  {
    var n := |fs| - 1;
    if j == n { CountLe(fs[..n], a, gs[..n], b); }
    else { CountLeButOne(fs[..n], a, gs[..n], b, j); }
  }

  /** All are true exactly when the count is the length. */
  lemma {:induction false} CountAll(fs: seq<Form>, a: Assignment)
    ensures Count(fs, a) == |fs| <==> Models(a, fs)
    decreases |fs|
  {
    if |fs| != 0 {
      var init, last := fs[..|fs| - 1], fs[|fs| - 1];
      CountAll(init, a);
      assert fs == init + [last];
    }
  }

  /** None is true exactly when the count is zero. */
  lemma {:induction false} CountNone(fs: seq<Form>, a: Assignment)
    ensures Count(fs, a) == 0 <==> forall i | 0 <= i < |fs| :: !Eval(fs[i], a)
    decreases |fs|
  {
    if |fs| != 0 { CountNone(fs[..|fs| - 1], a); }
  }
}
