/** Quantifier-free first-order terms with uninterpreted functions and arrays, and their
    meaning in a model. */
module Terms {

  /** Values are codes; distinct literals denote distinct values. */
  type Value = int

  const TRUE: Value := 1
  const FALSE: Value := 0

  /** What a model says of anything it does not mention. */
  const DEFAULT: Value := 0

  datatype Symbol = Eq | And | Implies | Select | Other(id: nat)

  /** Val is a literal, Const an uninterpreted constant, App an uninterpreted function
      applied to at least one argument, Op an interpreted symbol, AsArray(f) the array whose
      content is the function f, and Quantified a formula under a quantifier. */
  datatype Term =
    | Val(v: Value)
    | Const(c: nat)
    | App(f: nat, args: seq<Term>)
    | Op(o: Symbol, args: seq<Term>)
    | AsArray(f: nat)
    | Quantified(id: nat)

  type Fun = seq<Value> -> Value

  const ELSE: Fun := _ => DEFAULT

  datatype Model = Model(consts: map<nat, Value>, funs: map<nat, Fun>)

  /** The interpreted symbols: arrays with constant arrays and stores, and the rest. */
  datatype Theory = Theory(
    select: (Value, seq<Value>) -> Value,
    constArray: Value -> Value,
    store: (Value, seq<Value>, Value) -> Value,
    asArray: Fun -> Value,
    other: (nat, seq<Value>) -> Value,
    quantified: nat -> Value)

  /** The array axioms. */
  ghost predicate Arrays(th: Theory) {
    && (forall v, i :: th.select(th.constArray(v), i) == v)
    && (forall a, i, v, j :: th.select(th.store(a, i, v), j) == if i == j then v else th.select(a, j))
  }

  function ConstOf(m: Model, c: nat): Value {
    if c in m.consts then m.consts[c] else DEFAULT
  }

  function FunOf(m: Model, f: nat): Fun {
    if f in m.funs then m.funs[f] else ELSE
  }

  function Truth(b: bool): Value {
    if b then TRUE else FALSE
  }

  predicate AllTrue(vs: seq<Value>) {
    forall i | 0 <= i < |vs| :: vs[i] == TRUE
  }

  function Interpret(th: Theory, o: Symbol, vs: seq<Value>): Value {
    match o
    case Eq => Truth(|vs| == 2 && vs[0] == vs[1])
    case And => Truth(AllTrue(vs))
    case Implies => Truth(|vs| == 2 && (vs[0] == TRUE ==> vs[1] == TRUE))
    case Select => if |vs| == 0 then DEFAULT else th.select(vs[0], vs[1..])
    case Other(id) => th.other(id, vs)
  }

  function Eval(th: Theory, t: Term, m: Model): Value
    decreases t, 1
  {
    match t
    case Val(v) => v
    case Const(c) => ConstOf(m, c)
    case App(f, args) => FunOf(m, f)(EvalAll(th, args, m))
    case Op(o, args) => Interpret(th, o, EvalAll(th, args, m))
    case AsArray(f) => th.asArray(FunOf(m, f))
    case Quantified(id) => th.quantified(id)
  }

  function EvalAll(th: Theory, ts: seq<Term>, m: Model): (vs: seq<Value>)
    ensures |vs| == |ts|
    ensures forall i | 0 <= i < |ts| :: vs[i] == Eval(th, ts[i], m)
    decreases ts, 0
  {
    if |ts| == 0 then [] else [Eval(th, ts[0], m)] + EvalAll(th, ts[1..], m)
  }

  ghost predicate Holds(th: Theory, t: Term, m: Model) {
    Eval(th, t, m) == TRUE
  }

  ghost predicate AllHold(th: Theory, ts: seq<Term>, m: Model) {
    forall t | t in ts :: Holds(th, t, m)
  }

  function Kids(t: Term): seq<Term> {
    match t
    case App(_, args) => args
    case Op(_, args) => args
    case _ => []
  }

  function Subterms(t: Term): (s: set<Term>)
    ensures t in s
    decreases t, 1
  {
    {t} + match t
          case App(_, args) => SubtermsAll(args)
          case Op(_, args) => SubtermsAll(args)
          case _ => {}
  }

  function SubtermsAll(ts: seq<Term>): (s: set<Term>)
    ensures forall t | t in ts :: t in s
    decreases ts, 0
  {
    if |ts| == 0 then {} else Subterms(ts[0]) + SubtermsAll(ts[1..])
  }

  /** A set of terms is closed when it holds the arguments of its members. */
  ghost predicate Closed(s: set<Term>) {
    forall t, k | t in s && k in Kids(t) :: k in s
  }

  lemma {:induction false} SubtermsClosed(t: Term)
    ensures Closed(Subterms(t))
    decreases t, 1
  {
    match t
    case App(_, args) => SubtermsAllClosed(args);
    case Op(_, args) => SubtermsAllClosed(args);
    case _ =>
  }

  lemma {:induction false} SubtermsAllClosed(ts: seq<Term>)
    ensures Closed(SubtermsAll(ts))
    decreases ts, 0
  {
    if |ts| > 0 {
      SubtermsClosed(ts[0]);
      SubtermsAllClosed(ts[1..]);
    }
  }

  /** The least closed set. */
  lemma {:induction false} SubtermsLeast(t: Term, s: set<Term>)
    requires Closed(s) && t in s
    ensures Subterms(t) <= s
    decreases t, 1
  {
    match t
    case App(_, args) => assert forall k | k in args :: k in Kids(t); SubtermsAllLeast(args, s);
    case Op(_, args) => assert forall k | k in args :: k in Kids(t); SubtermsAllLeast(args, s);
    case _ =>
  }

  lemma {:induction false} SubtermsAllLeast(ts: seq<Term>, s: set<Term>)
    requires Closed(s) && forall t | t in ts :: t in s
    ensures SubtermsAll(ts) <= s
    decreases ts, 0
  {
    if |ts| > 0 {
      SubtermsLeast(ts[0], s);
      SubtermsAllLeast(ts[1..], s);
    }
  }

  /** Every constant of t is numbered below n. */
  predicate Below(t: Term, n: nat)
    decreases t
  {
    match t
    case Const(c) => c < n
    case App(_, args) => forall i | 0 <= i < |args| :: Below(args[i], n)
    case Op(_, args) => forall i | 0 <= i < |args| :: Below(args[i], n)
    case _ => true
  }

  predicate AllBelow(ts: seq<Term>, n: nat) {
    forall i | 0 <= i < |ts| :: Below(ts[i], n)
  }

  ghost predicate SetBelow(s: set<Term>, n: nat) {
    forall t | t in s :: Below(t, n)
  }

  lemma {:induction false} SubtermsBelow(t: Term, n: nat)
    requires Below(t, n)
    ensures SetBelow(Subterms(t), n)
    decreases t, 1
  {
    match t
    case App(_, args) => SubtermsAllBelow(args, n);
    case Op(_, args) => SubtermsAllBelow(args, n);
    case _ =>
  }

  lemma {:induction false} SubtermsAllBelow(ts: seq<Term>, n: nat)
    requires AllBelow(ts, n)
    ensures SetBelow(SubtermsAll(ts), n)
    decreases ts, 0
  {
    if |ts| > 0 {
      SubtermsBelow(ts[0], n);
      SubtermsAllBelow(ts[1..], n);
    }
  }

  /** Evaluation depends on a model only through what it says of constants and functions. */
  lemma {:induction false} EvalSame(th: Theory, t: Term, m: Model, m': Model)
    requires m.funs == m'.funs && forall c :: ConstOf(m, c) == ConstOf(m', c)
    ensures Eval(th, t, m) == Eval(th, t, m')
    decreases t, 1
  {
    match t
    case App(_, args) => EvalAllSame(th, args, m, m');
    case Op(_, args) => EvalAllSame(th, args, m, m');
    case _ =>
  }

  lemma {:induction false} EvalAllSame(th: Theory, ts: seq<Term>, m: Model, m': Model)
    requires m.funs == m'.funs && forall c :: ConstOf(m, c) == ConstOf(m', c)
    ensures EvalAll(th, ts, m) == EvalAll(th, ts, m')
    decreases ts, 0
  {
    if |ts| > 0 {
      EvalSame(th, ts[0], m, m');
      EvalAllSame(th, ts[1..], m, m');
    }
  }
}
