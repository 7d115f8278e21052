/** The property-directed reachability engine of mini_ic3.py: frames of clauses, proof
    obligations on a heap, and the inductive invariant or counterexample it returns. */
module Ic3 {
  import opened Prop
  import opened Sets
  import opened Solver

  // ---------------------------------------------------------------- transition systems

  /** State variables are numbered below n, inputs follow them, and after the inputs come the
      state variables of the next state. */
  datatype System = System(n: nat, inputs: nat, init: Form, trans: Form, bad: Form) {
    function Shift(): nat {
      n + inputs
    }

    ghost predicate WellFormed() {
      Below(init, n) && Below(bad, n + inputs) && Below(trans, n + inputs + n)
    }
  }

  /** The state an assignment steps to. */
  function Post(sys: System, a: Assignment): Assignment {
    set x | 0 <= x < sys.n && NextHas(sys, a, x)
  }

  predicate NextHas(sys: System, a: Assignment, x: nat) {
    x + sys.Shift() in a
  }

  /** One step after the other; each assignment also carries its step's inputs. */
  ghost predicate Path(sys: System, p: seq<Assignment>) {
    forall i | 0 <= i < |p| - 1 :: Eval(sys.trans, p[i]) && Agree(Post(sys, p[i]), p[i + 1], sys.n)
  }

  // ---------------------------------------------------------------- cubes and clauses

  datatype Lit = Lit(x: nat, positive: bool)

  type Cube = seq<Lit>

  /** A literal over the variables shifted by d: 0 for the current state. */
  function At(l: Lit, d: nat): Form {
    if l.positive then Var(l.x + d) else Form.Not(Var(l.x + d))
  }

  function AllAt(c: Cube, d: nat): (fs: seq<Form>)
    ensures |fs| == |c| && forall i | 0 <= i < |c| :: fs[i] == At(c[i], d)
  {
    seq(|c|, i requires 0 <= i < |c| => At(c[i], d))
  }

  function Negate(f: Form): Form {
    if f.Not? then f.f else Form.Not(f)
  }

  function Conj(c: Cube): Form {
    if |c| == 0 then Top else And(Conj(c[..|c| - 1]), At(c[|c| - 1], 0))
  }

  function ClauseOf(c: Cube): Form {
    if |c| == 0 then Bot else Or(ClauseOf(c[..|c| - 1]), Negate(At(c[|c| - 1], 0)))
  }

  predicate InCube(c: Cube, a: Assignment) {
    forall i | 0 <= i < |c| :: Eval(At(c[i], 0), a)
  }

  lemma {:induction false} ConjMeaning(c: Cube, a: Assignment)
    ensures Eval(Conj(c), a) <==> InCube(c, a)
  {
    if |c| > 0 {
      ConjMeaning(c[..|c| - 1], a);
    }
  }

  lemma {:induction false} ClauseMeaning(c: Cube, a: Assignment)
    ensures Eval(ClauseOf(c), a) <==> !InCube(c, a)
  {
    if |c| > 0 {
      ClauseMeaning(c[..|c| - 1], a);
    }
  }

  ghost predicate WellCube(n: nat, c: Cube) {
    (forall i | 0 <= i < |c| :: c[i].x < n) && forall i, j | 0 <= i < j < |c| :: c[i] != c[j]
  }

  lemma {:induction false} ClauseBelow(n: nat, c: Cube)
    requires forall i | 0 <= i < |c| :: c[i].x < n
    ensures Below(ClauseOf(c), n) && Below(Conj(c), n)
  {
    if |c| > 0 { ClauseBelow(n, c[..|c| - 1]); }
  }

  /** Assignments that agree on the state variables are in the same cubes. */
  lemma CubeAgree(n: nat, c: Cube, a: Assignment, b: Assignment)
    requires WellCube(n, c) && Agree(a, b, n)
    ensures InCube(c, a) <==> InCube(c, b)
  {
    forall i | 0 <= i < |c| ensures Eval(At(c[i], 0), a) == Eval(At(c[i], 0), b) {
      EvalAgree(At(c[i], 0), a, b, n);
    }
  }

  // ---------------------------------------------------------------- finitely many clauses

  function Lits(n: nat): set<Lit> {
    set x, p | 0 <= x < n && p in {true, false} :: Lit(x, p)
  }

  function LitSeqs(ls: set<Lit>, len: nat): set<Cube> {
    if len == 0 then {[]}
    else
      var shorter := LitSeqs(ls, len - 1);
      shorter + set c, l | c in shorter && l in ls :: c + [l]
  }

  lemma {:induction false} LitSeqIn(ls: set<Lit>, len: nat, c: Cube)
    requires |c| <= len && forall l | l in c :: l in ls
    ensures c in LitSeqs(ls, len)
    decreases len
  {
    if len > 0 {
      if |c| == len {
        LitSeqIn(ls, len - 1, c[..|c| - 1]);
        assert c == c[..|c| - 1] + [c[|c| - 1]];
      } else {
        LitSeqIn(ls, len - 1, c);
      }
    }
  }

  /** All clauses over n variables without repeated literals. */
  function Clauses(n: nat): set<Form> {
    set c | c in LitSeqs(Lits(n), |Lits(n)|) :: ClauseOf(c)
  }

  lemma {:induction false} DistinctLength(ls: set<Lit>, c: Cube)
    requires (forall l | l in c :: l in ls) && forall i, j | 0 <= i < j < |c| :: c[i] != c[j]
    ensures |c| <= |ls|
    decreases |c|
  {
    if |c| > 0 {
      var l := c[|c| - 1];
      assert l in c;
      forall k | k in c[..|c| - 1] ensures k in ls - {l} { assert k in c; }
      DistinctLength(ls - {l}, c[..|c| - 1]);
    }
  }

  lemma ClauseInUniverse(n: nat, c: Cube)
    requires WellCube(n, c)
    ensures ClauseOf(c) in Clauses(n)
  {
    forall l | l in c ensures l in Lits(n) {}
    DistinctLength(Lits(n), c);
    LitSeqIn(Lits(n), |Lits(n)|, c);
  }

  // ---------------------------------------------------------------- finitely many states

  function AllStates(n: nat): set<Assignment> {
    if n == 0 then {{}}
    else
      var smaller := AllStates(n - 1);
      smaller + set s | s in smaller :: s + {n - 1}
  }

  function Restrict(n: nat, a: Assignment): Assignment {
    set x | x in a && x < n
  }

  lemma {:induction false} StateListed(n: nat, a: Assignment)
    ensures Restrict(n, a) in AllStates(n)
  {
    if n == 0 {
      assert Restrict(0, a) == {};
    } else {
      StateListed(n - 1, a);
      if n - 1 in a { assert Restrict(n, a) == Restrict(n - 1, a) + {n - 1}; }
      else { assert Restrict(n, a) == Restrict(n - 1, a); }
    }
  }

  // ---------------------------------------------------------------- frames

  type Frame = set<Form>

  ghost predicate InFrame(R: Frame, a: Assignment) {
    forall f | f in R :: Eval(f, a)
  }

  ghost predicate Excluded(R: Frame, c: Cube) {
    forall a | InFrame(R, a) :: !InCube(c, a)
  }

  ghost predicate SafeFrame(sys: System, R: Frame) {
    forall a | InFrame(R, a) :: !Eval(sys.bad, a)
  }

  ghost predicate Steps(sys: System, R: Frame, R': Frame) {
    forall a | InFrame(R, a) && Eval(sys.trans, a) :: InFrame(R', Post(sys, a))
  }

  ghost predicate Initiated(sys: System, R: Frame) {
    forall a | Eval(sys.init, a) :: InFrame(R, a)
  }

  ghost predicate FrameForms(sys: System, fs: seq<Frame>) {
    && |fs| > 0 && sys.init in fs[0] && fs[0] <= Clauses(sys.n) + {sys.init}
    && (forall i | 1 <= i < |fs| :: fs[i] <= Clauses(sys.n))
    && forall i, f | 0 <= i < |fs| && f in fs[i] :: Below(f, sys.n)
  }

  ghost predicate Monotone(fs: seq<Frame>) {
    forall i, j | 0 <= i <= j < |fs| :: fs[j] <= fs[i]
  }

  ghost predicate Consecutive(sys: System, fs: seq<Frame>) {
    forall i | 0 <= i < |fs| - 1 :: Steps(sys, fs[i], fs[i + 1])
  }

  ghost predicate SafeButLast(sys: System, fs: seq<Frame>) {
    forall i | 0 <= i < |fs| - 1 :: SafeFrame(sys, fs[i])
  }

  /** What every reachable state of the engine keeps. */
  ghost predicate FramesOk(sys: System, fs: seq<Frame>) {
    FrameForms(sys, fs) && Monotone(fs) && Consecutive(sys, fs) && SafeButLast(sys, fs)
  }

  function Blocked(fs: seq<Frame>, f: nat, clause: Form): (fs': seq<Frame>)
    ensures |fs'| == |fs|
    ensures forall i | 0 <= i < |fs| :: fs'[i] == if i <= f then fs[i] + {clause} else fs[i]
  {
    seq(|fs|, i requires 0 <= i < |fs| => if i <= f then fs[i] + {clause} else fs[i])
  }

  /** No state of the frame outside the cube steps into the cube. */
  ghost predicate RelativelyInductive(sys: System, R: Frame, c: Cube) {
    forall a | InFrame(R, a) && !InCube(c, a) && Eval(sys.trans, a) :: !InCube(c, Post(sys, a))
  }

  lemma InFramePlus(R: Frame, c: Cube, a: Assignment)
    ensures InFrame(R + {ClauseOf(c)}, a) <==> InFrame(R, a) && !InCube(c, a)
  {
    ClauseMeaning(c, a);
    if InFrame(R + {ClauseOf(c)}, a) {
      assert ClauseOf(c) in R + {ClauseOf(c)};
      assert forall f | f in R :: f in R + {ClauseOf(c)};
    }
  }

  lemma InFrameMono(R: Frame, R': Frame, a: Assignment)
    requires R' <= R && InFrame(R, a)
    ensures InFrame(R', a)
  {}

  /** Blocking a relatively inductive cube keeps the frames in order, whether or not the cube
      meets the initial states. */
  lemma BlockKeepsFrames(sys: System, fs: seq<Frame>, f: nat, c: Cube)
    requires FramesOk(sys, fs) && 1 <= f < |fs| && WellCube(sys.n, c)
    requires RelativelyInductive(sys, fs[f - 1], c)
    ensures FramesOk(sys, Blocked(fs, f, ClauseOf(c)))
  {
    var fs' := Blocked(fs, f, ClauseOf(c));
    ClauseInUniverse(sys.n, c);
    ClauseBelow(sys.n, c);
    assert FrameForms(sys, fs');
    forall i | 0 <= i < |fs| - 1 ensures Steps(sys, fs'[i], fs'[i + 1]) && SafeFrame(sys, fs'[i]) {
      BlockKeepsStep(sys, fs, f, c, i);
    }
  }

  lemma BlockKeepsStep(sys: System, fs: seq<Frame>, f: nat, c: Cube, i: nat)
    requires FramesOk(sys, fs) && 1 <= f < |fs| && i < |fs| - 1
    requires RelativelyInductive(sys, fs[f - 1], c)
    ensures Steps(sys, Blocked(fs, f, ClauseOf(c))[i], Blocked(fs, f, ClauseOf(c))[i + 1])
    ensures SafeFrame(sys, Blocked(fs, f, ClauseOf(c))[i])
  {
    var fs' := Blocked(fs, f, ClauseOf(c));
    assert SafeFrame(sys, fs[i]) && Steps(sys, fs[i], fs[i + 1]);
    forall a | InFrame(fs'[i], a)
      ensures !Eval(sys.bad, a) && (Eval(sys.trans, a) ==> InFrame(fs'[i + 1], Post(sys, a)))
    {
      InFrameMono(fs'[i], fs[i], a);
      if Eval(sys.trans, a) && i + 1 <= f {
        InFramePlus(fs[i], c, a);
        InFrameMono(fs[i], fs[f - 1], a);
        InFramePlus(fs[i + 1], c, Post(sys, a));
      }
    }
  }

  /** Every frame of the new sequence has all clauses of the old. */
  ghost predicate Stronger(fs: seq<Frame>, fs': seq<Frame>) {
    |fs| == |fs'| && forall i | 0 <= i < |fs| :: fs[i] <= fs'[i]
  }

  lemma StrongerRefl(fs: seq<Frame>)
    ensures Stronger(fs, fs)
  {}

  lemma StrongerTrans(fs: seq<Frame>, fs': seq<Frame>, fs'': seq<Frame>)
    requires Stronger(fs, fs') && Stronger(fs', fs'')
    ensures Stronger(fs, fs'')
  {}

  lemma BlockedStronger(fs: seq<Frame>, f: nat, clause: Form)
    ensures Stronger(fs, Blocked(fs, f, clause))
  {}

  // ---------------------------------------------------------------- counting states

  ghost function StatesOf(n: nat, R: Frame): set<Assignment> {
    set s | s in AllStates(n) && InFrame(R, s)
  }

  /** The number of states in all frames together. */
  ghost function Weight(n: nat, fs: seq<Frame>): nat {
    if |fs| == 0 then 0 else Weight(n, fs[..|fs| - 1]) + |StatesOf(n, fs[|fs| - 1])|
  }

  lemma {:induction false} WeightStronger(n: nat, fs: seq<Frame>, fs': seq<Frame>)
    requires Stronger(fs, fs')
    ensures Weight(n, fs') <= Weight(n, fs)
    decreases |fs|
  {
    if |fs| > 0 {
      WeightStronger(n, fs[..|fs| - 1], fs'[..|fs| - 1]);
      FewerStates(n, fs[|fs| - 1], fs'[|fs| - 1]);
    }
  }

  lemma FewerStates(n: nat, R: Frame, R': Frame)
    requires R <= R'
    ensures |StatesOf(n, R')| <= |StatesOf(n, R)|
    ensures forall s | s in StatesOf(n, R) && !InFrame(R', s) :: |StatesOf(n, R')| < |StatesOf(n, R)|
  {
    assert StatesOf(n, R') <= StatesOf(n, R) by {
      forall s | s in StatesOf(n, R') ensures s in StatesOf(n, R) { InFrameMono(R', R, s); }
    }
    SubsetSize(StatesOf(n, R'), StatesOf(n, R));
  }

  /** A state lost in one frame lowers the weight. */
  lemma {:induction false} WeightLess(sys: System, fs: seq<Frame>, fs': seq<Frame>, j: nat, c: Cube, a: Assignment)
    requires Stronger(fs, fs') && j < |fs| && WellCube(sys.n, c) && forall f | f in fs[j] :: Below(f, sys.n)
    requires InFrame(fs[j], a) && InCube(c, a) && Excluded(fs'[j], c)
    ensures Weight(sys.n, fs') < Weight(sys.n, fs)
    decreases |fs|
  {
    var k := |fs| - 1;
    FewerStates(sys.n, fs[k], fs'[k]);
    if j == k {
      WeightStronger(sys.n, fs[..k], fs'[..k]);
      var s := Restrict(sys.n, a);
      StateListed(sys.n, a);
      CubeAgree(sys.n, c, a, s);
      FrameAgree(sys.n, fs[k], a, s);
      assert s in StatesOf(sys.n, fs[k]);
    } else {
      WeightLess(sys, fs[..k], fs'[..k], j, c, a);
    }
  }

  lemma FrameAgree(n: nat, R: Frame, a: Assignment, b: Assignment)
    requires (forall f | f in R :: Below(f, n)) && Agree(a, b, n) && InFrame(R, a)
    ensures InFrame(R, b)
  {
    forall f | f in R ensures Eval(f, b) { EvalAgree(f, a, b, n); }
  }

  // ---------------------------------------------------------------- proof obligations

  datatype Goal = Goal(cube: Cube, parent: Parent, level: nat)
  datatype Parent = NoParent | Parent(goal: Goal)

  /** A bad state, for some inputs. */
  ghost predicate BadState(sys: System, a: Assignment) {
    exists b :: Agree(a, b, sys.n) && Eval(sys.bad, b)
  }

  /** From a one can step into the goal's cube, and to a bad state if the goal is the root. */
  ghost predicate LeadsTo(sys: System, a: Assignment, g: Goal) {
    exists b :: StepTo(sys, a, b, g)
  }

  ghost predicate StepTo(sys: System, a: Assignment, b: Assignment, g: Goal) {
    && Agree(a, b, sys.n) && Eval(sys.trans, b) && InCube(g.cube, Post(sys, b))
    && (g.parent.NoParent? ==> BadState(sys, Post(sys, b)))
  }

  ghost predicate StepsInto(sys: System, c: Cube, g: Goal) {
    forall a | InCube(c, a) :: LeadsTo(sys, a, g)
  }

  ghost predicate Chain(sys: System, root: Cube, g: Goal)
    decreases g
  {
    WellCube(sys.n, g.cube) &&
    match g.parent
    case NoParent => g.cube == root
    case Parent(p) => StepsInto(sys, g.cube, p) && Chain(sys, root, p)
  }

  function Depth(g: Goal): nat {
    match g.parent
    case NoParent => 0
    case Parent(p) => Depth(p) + 1
  }

  ghost predicate Meets(R: Frame, c: Cube) {
    exists a :: InFrame(R, a) && InCube(c, a)
  }

  /** A goal at a level is unreachable one level below; at level 0 it meets the first frame.
      The root stays at the last level. */
  ghost predicate Placed(fs: seq<Frame>, g: Goal) {
    && g.level < |fs| && (g.parent.NoParent? ==> g.level == |fs| - 1)
    && if g.level == 0 then Meets(fs[0], g.cube) else Excluded(fs[g.level - 1], g.cube)
  }

  ghost predicate GoalOk(sys: System, fs: seq<Frame>, root: Cube, g: Goal) {
    Chain(sys, root, g) && Placed(fs, g)
  }

  ghost predicate GoalsOk(sys: System, fs: seq<Frame>, root: Cube, goals: seq<Goal>) {
    forall g | g in goals :: GoalOk(sys, fs, root, g)
  }

  /** The states of the cube in the frame are bad. */
  ghost predicate BadIn(sys: System, R: Frame, c: Cube) {
    forall a | InFrame(R, a) && InCube(c, a) :: BadState(sys, a)
  }

  /** A chain is a path: from any state of the goal's cube into the root, to a bad state. */
  lemma {:induction false} ChainPath(sys: System, root: Cube, g: Goal, a: Assignment) returns (p: seq<Assignment>)
    requires Chain(sys, root, g) && InCube(g.cube, a)
    ensures |p| == Depth(g) + 1 && Agree(a, p[0], sys.n) && Path(sys, p) && InCube(root, p[|p| - 1])
    ensures g.parent.Parent? ==> BadState(sys, p[|p| - 1])
    decreases g
  {
    match g.parent
    case NoParent =>
      p := [a];
    case Parent(up) =>
      assert LeadsTo(sys, a, up);
      var b :| StepTo(sys, a, b, up);
      var rest := ChainPath(sys, root, up, Post(sys, b));
      p := [b] + rest;
      assert forall i | 1 <= i < |p| - 1 :: p[i] == rest[i - 1] && p[i + 1] == rest[i];
      if up.parent.NoParent? { BadAgree(sys, Post(sys, b), rest[0]); }
  }

  lemma BadAgree(sys: System, a: Assignment, b: Assignment)
    requires BadState(sys, a) && Agree(a, b, sys.n)
    ensures BadState(sys, b)
  {
    var c :| Agree(a, c, sys.n) && Eval(sys.bad, c);
    assert Agree(b, c, sys.n);
  }

  /** What is returned as a counterexample. */
  ghost predicate Counterexample(sys: System, g: Goal) {
    && g.level == 0 && g.parent.Parent? && (exists root :: Chain(sys, root, g))
    && MeetsInit(sys, g.cube)
  }

  /** A counterexample is a path from an initial state to a bad state. */
  lemma CounterexampleIsReal(sys: System, g: Goal) returns (p: seq<Assignment>)
    requires sys.WellFormed() && Counterexample(sys, g)
    ensures |p| == Depth(g) + 1 && Path(sys, p) && Eval(sys.init, p[0]) && BadState(sys, p[|p| - 1])
  {
    var root :| Chain(sys, root, g);
    var a :| Eval(sys.init, a) && InCube(g.cube, a);
    p := ChainPath(sys, root, g, a);
    EvalAgree(sys.init, a, p[0], sys.n);
  }

  lemma GoalReturned(sys: System, fs: seq<Frame>, root: Cube, g: Goal)
    requires FramesOk(sys, fs) && GoalOk(sys, fs, root, g) && g.level == 0 && |fs| > 1
    ensures Counterexample(sys, g)
  {
    var a :| InFrame(fs[0], a) && InCube(g.cube, a);
    assert Eval(sys.init, a);
  }

  // ---------------------------------------------------------------- steps of the obligation loop

  /** The state of a, with the inputs and the next state of m. */
  function Mix(n: nat, a: Assignment, m: Assignment): Assignment {
    Restrict(n, a) + set x | x in m && x >= n
  }

  /** Every state of c, with m's inputs, steps where m steps. */
  ghost predicate StepsLike(sys: System, c: Cube, m: Assignment) {
    InCube(c, m) && forall a | InCube(c, a) :: Eval(sys.trans, Mix(sys.n, a, m))
  }

  lemma MixedPost(sys: System, a: Assignment, m: Assignment)
    ensures Agree(a, Mix(sys.n, a, m), sys.n) && Post(sys, Mix(sys.n, a, m)) == Post(sys, m)
  {
    assert forall x: nat | x < sys.n :: NextHas(sys, Mix(sys.n, a, m), x) == NextHas(sys, m, x);
  }

  /** The obligation for a predecessor. */
  lemma ChildOk(sys: System, fs: seq<Frame>, root: Cube, g: Goal, c: Cube, m: Assignment)
    requires FramesOk(sys, fs) && GoalOk(sys, fs, root, g) && 1 <= g.level && WellCube(sys.n, c)
    requires BadIn(sys, fs[|fs| - 1], root)
    requires InFrame(fs[g.level - 1], m) && InCube(g.cube, Post(sys, m)) && StepsLike(sys, c, m) && Eval(sys.trans, m)
    ensures GoalOk(sys, fs, root, Goal(c, Parent(g), g.level - 1))
  {
    var f := g.level;
    assert Steps(sys, fs[f - 1], fs[f]);
    forall a | InCube(c, a) ensures LeadsTo(sys, a, g) {
      MixedPost(sys, a, m);
      assert StepTo(sys, a, Mix(sys.n, a, m), g);
    }
    if f > 1 {
      assert Steps(sys, fs[f - 2], fs[f - 1]);
      forall a | InFrame(fs[f - 2], a) ensures !InCube(c, a) {
        MixedPost(sys, a, m);
        FrameAgree(sys.n, fs[f - 2], a, Mix(sys.n, a, m));
      }
    }
  }

  ghost predicate AboveZero(goals: seq<Goal>) {
    forall g | g in goals :: g.level >= 1
  }

  /** Stronger frames keep all obligations above level 0 in place. */
  lemma GoalsStay(sys: System, fs: seq<Frame>, fs': seq<Frame>, root: Cube, goals: seq<Goal>)
    requires GoalsOk(sys, fs, root, goals) && Stronger(fs, fs') && AboveZero(goals)
    ensures GoalsOk(sys, fs', root, goals)
  {
    forall g | g in goals ensures GoalOk(sys, fs', root, g) { ExcludedMore(fs[g.level - 1], fs'[g.level - 1], g.cube); }
  }

  lemma ExcludedMore(R: Frame, R': Frame, c: Cube)
    requires Excluded(R, c) && R <= R'
    ensures Excluded(R', c)
  {
    forall a | InFrame(R', a) ensures !InCube(c, a) { InFrameMono(R', R, a); }
  }

  lemma BadInMore(sys: System, R: Frame, R': Frame, c: Cube)
    requires BadIn(sys, R, c) && R <= R'
    ensures BadIn(sys, R', c)
  {
    forall a | InFrame(R', a) && InCube(c, a) ensures BadState(sys, a) { InFrameMono(R', R, a); }
  }

  /** c has every state of the cube. */
  ghost predicate Covers(c: Cube, cube: Cube) {
    forall a | InCube(cube, a) :: InCube(c, a)
  }

  lemma BlockedExcludes(fs: seq<Frame>, f: nat, c: Cube, cube: Cube, j: nat)
    requires j <= f < |fs| && Covers(c, cube)
    ensures Excluded(Blocked(fs, f, ClauseOf(c))[j], cube) && Excluded(Blocked(fs, f, ClauseOf(c))[j], c)
  {
    forall a | InFrame(Blocked(fs, f, ClauseOf(c))[j], a) ensures !InCube(cube, a) && !InCube(c, a) {
      InFramePlus(fs[j], c, a);
    }
  }

  /** Until top is passed, the lowest obligations have states in their own frame. */
  ghost predicate Hot(fs: seq<Frame>, goals: seq<Goal>, top: nat) {
    top < |fs| ==> (exists h :: h in goals && h.level == top)
                   && forall h | h in goals :: h.level >= top && (h.level == top ==> Meets(fs[top], h.cube))
  }

  function Slack(N: nat, goals: seq<Goal>): nat {
    if |goals| == 0 then 0
    else Slack(N, goals[1..]) + if goals[0].level <= N then N + 1 - goals[0].level else 0
  }

  function Without(goals: seq<Goal>, i: nat): seq<Goal>
    requires i < |goals|
  {
    goals[..i] + goals[i + 1..]
  }

  lemma {:induction false} SlackWithout(N: nat, goals: seq<Goal>, i: nat)
    requires i < |goals|
    ensures Slack(N, goals) == Slack(N, Without(goals, i)) + if goals[i].level <= N then N + 1 - goals[i].level else 0
  {
    if i == 0 {
      assert Without(goals, 0) == goals[1..];
    } else {
      SlackWithout(N, goals[1..], i - 1);
      assert Without(goals, i)[1..] == Without(goals[1..], i - 1);
    }
  }

  function Capped(fs: seq<Frame>, top: nat): nat {
    if top < |fs| then top else |fs|
  }

  /** The termination measure of the loop: states, then the lowest hot level, then slack. */
  ghost predicate Lower(n: nat, fs: seq<Frame>, goals: seq<Goal>, top: nat, fs': seq<Frame>, goals': seq<Goal>,
                        top': nat)
    requires |fs| > 0
  {
    || Weight(n, fs') < Weight(n, fs)
    || (Weight(n, fs') == Weight(n, fs) && Capped(fs', top') < Capped(fs, top))
    || (Weight(n, fs') == Weight(n, fs) && Capped(fs', top') == Capped(fs, top)
        && Slack(|fs| - 1, goals') < Slack(|fs| - 1, goals))
  }

  /** What one round of the loop achieves, towards its end. */
  ghost predicate Advances(sys: System, root: Cube, fs: seq<Frame>, goals: seq<Goal>, top: nat, fs': seq<Frame>,
                           goals': seq<Goal>, lost': Loss, top': nat) {
    && |fs| > 0 && Stronger(fs, fs') && LoopOk(sys, fs', root, goals', lost') && Hot(fs', goals', top')
    && Lower(sys.n, fs, goals, top, fs', goals', top')
  }

  /** Frames and heap once an obligation has been handled. */
  ghost predicate Decided(fs: seq<Frame>, goals: seq<Goal>, i: nat, r: Induction, fs': seq<Frame>, goals': seq<Goal>)
    requires i < |goals| && goals[i].level >= 1
  {
    match r
    case Predecessor(c, _) => fs' == fs && goals' == WithChild(goals, i, c)
    case Inductive(c, _) =>
      |fs| > 0 && fs' == Blocked(fs, goals[i].level, ClauseOf(c)) && goals' == Raised(goals, i, |fs| - 1)
    case NoCore => fs' == fs
  }

  /** The root is still an obligation, or excluded from the last frame. */
  ghost predicate RootPending(fs: seq<Frame>, root: Cube, goals: seq<Goal>) {
    (exists g :: g in goals && g.parent.NoParent?) || (|fs| > 0 && Excluded(fs[|fs| - 1], root))
  }

  // ---------------------------------------------------------------- initial states

  ghost predicate MeetsInit(sys: System, c: Cube) {
    exists a :: Eval(sys.init, a) && InCube(c, a)
  }

  /** How many frames lack an initial state, and whether a core has been accepted. */
  datatype Loss = Loss(frames: nat, accepted: bool)

  /** Exactly the frames below lost.frames lack an initial state; the first to be lost is
      always lost to an accepted core. */
  ghost predicate LostOk(sys: System, fs: seq<Frame>, lost: Loss) {
    && lost.frames <= |fs| && (forall j | 0 <= j < |fs| :: Initiated(sys, fs[j]) <==> j >= lost.frames)
    && (lost.accepted <==> lost.frames > 0)
  }

  /** A block loses initial states if its cube meets them: the test the engine makes of cores. */
  ghost function LostAfter(sys: System, lost: Loss, f: nat, c: Cube, accepted: bool): Loss {
    Loss(if MeetsInit(sys, c) && lost.frames < f + 1 then f + 1 else lost.frames, lost.accepted || accepted)
  }

  /** While no core has been accepted, a blocked obligation meets no initial state. */
  lemma BlockObligation(sys: System, fs: seq<Frame>, lost: Loss, f: nat, c: Cube)
    requires LostOk(sys, fs, lost) && 1 <= f < |fs| && Excluded(fs[f - 1], c) && !lost.accepted
    ensures !MeetsInit(sys, c)
  {
    assert Initiated(sys, fs[f - 1]);
  }

  /** Blocking a cube that meets the initial states loses one, in every frame up to f. */
  lemma BlockCore(sys: System, fs: seq<Frame>, lost: Loss, f: nat, c: Cube, accepted: bool)
    requires LostOk(sys, fs, lost) && f < |fs| && MeetsInit(sys, c) && (lost.accepted || accepted)
    ensures LostOk(sys, Blocked(fs, f, ClauseOf(c)), LostAfter(sys, lost, f, c, accepted))
  {
    var fs' := Blocked(fs, f, ClauseOf(c));
    var i :| Eval(sys.init, i) && InCube(c, i);
    forall j | 0 <= j < |fs| ensures Initiated(sys, fs'[j]) <==> j > f && Initiated(sys, fs[j]) {
      if j <= f { InFramePlus(fs[j], c, i); }
    }
  }

  /** A cube disjoint from the initial states loses none: for cores the test is the wrong way
      round. */
  lemma BlockDisjointCore(sys: System, fs: seq<Frame>, lost: Loss, f: nat, c: Cube)
    requires LostOk(sys, fs, lost) && f < |fs| && !MeetsInit(sys, c)
    ensures LostOk(sys, Blocked(fs, f, ClauseOf(c)), lost)
  {
    var fs' := Blocked(fs, f, ClauseOf(c));
    forall j | 0 <= j < |fs| ensures Initiated(sys, fs'[j]) <==> Initiated(sys, fs[j]) {
      forall a | Eval(sys.init, a) ensures InFrame(fs'[j], a) <==> InFrame(fs[j], a) {
        if j <= f { InFramePlus(fs[j], c, a); }
      }
    }
  }

  // ---------------------------------------------------------------- the invariant returned

  /** Closed under transitions, and free of bad states. */
  ghost predicate SafeInvariant(sys: System, R: Frame) {
    Steps(sys, R, R) && SafeFrame(sys, R)
  }

  ghost predicate Repeats(fs: seq<Frame>, i: nat) {
    1 <= i < |fs| - 1 && fs[i] <= fs[i + 1]
  }

  ghost predicate NoRepeat(fs: seq<Frame>) {
    forall i | 1 <= i < |fs| - 1 :: !(fs[i] <= fs[i + 1])
  }

  lemma RepeatedFrame(sys: System, fs: seq<Frame>, i: nat)
    requires FramesOk(sys, fs) && i + 1 < |fs| && fs[i] <= fs[i + 1]
    ensures SafeInvariant(sys, fs[i])
  {
    assert Steps(sys, fs[i], fs[i + 1]) && SafeFrame(sys, fs[i]);
    forall a | InFrame(fs[i], a) && Eval(sys.trans, a) ensures InFrame(fs[i], Post(sys, a)) {
      InFrameMono(fs[i + 1], fs[i], Post(sys, a));
    }
  }

  /** The same states. */
  ghost predicate SameStates(R: Frame, R': Frame) {
    forall a :: InFrame(R, a) <==> InFrame(R', a)
  }

  lemma SameInvariant(sys: System, R: Frame, R': Frame)
    requires SameStates(R, R')
    ensures SafeInvariant(sys, R) ==> SafeInvariant(sys, R')
    ensures Initiated(sys, R) <==> Initiated(sys, R')
  {}

  /** With the initial states inside, no path reaches a bad state. */
  lemma {:induction false} InvariantHolds(sys: System, R: Frame, p: seq<Assignment>, i: nat)
    requires SafeInvariant(sys, R) && Initiated(sys, R) && forall f | f in R :: Below(f, sys.n)
    requires Path(sys, p) && i < |p| && Eval(sys.init, p[0])
    ensures InFrame(R, p[i]) && !BadState(sys, p[i])
  {
    if i > 0 {
      InvariantHolds(sys, R, p, i - 1);
      FrameAgree(sys.n, R, Post(sys, p[i - 1]), p[i]);
    }
    forall b | Agree(p[i], b, sys.n) ensures !Eval(sys.bad, b) { FrameAgree(sys.n, R, p[i], b); }
  }

  /** While no two neighbouring frames have the same clauses, there are at most as many
      frames as clauses, and two. */
  lemma {:induction false} FramesBounded(sys: System, fs: seq<Frame>, i: nat)
    requires FramesOk(sys, fs) && 1 <= i < |fs|
    requires NoRepeat(fs)
    ensures |fs| - 1 - i <= |fs[i]| <= |Clauses(sys.n)|
    decreases |fs| - i
  {
    SubsetSize(fs[i], Clauses(sys.n));
    if i + 1 < |fs| {
      FramesBounded(sys, fs, i + 1);
      SubsetSize(fs[i + 1], fs[i]);
    }
  }

  // ---------------------------------------------------------------- literals of models and cores

  /** The values m gives len variables from lo on, d further up. */
  function Literals(m: Assignment, lo: nat, len: nat, d: nat): (c: Cube)
    ensures |c| == len && forall i | 0 <= i < len :: c[i] == Lit(lo + i, lo + i + d in m)
  {
    seq(len, i requires 0 <= i < len => Lit(lo + i, lo + i + d in m))
  }

  function LitOf(f: Form, d: nat): Lit {
    match f
    case Var(x) => Lit(if x >= d then x - d else 0, true)
    case Not(Var(x)) => Lit(if x >= d then x - d else 0, false)
    case _ => Lit(0, true)
  }

  /** The literals of the cube that are in the core, in the core's order. */
  function Select(core: seq<Form>, cube: Cube, d: nat): Cube {
    if |core| == 0 then []
    else
      var rest, l := Select(core[..|core| - 1], cube, d), LitOf(core[|core| - 1], d);
      if l in cube && At(l, d) == core[|core| - 1] then rest + [l] else rest
  }

  lemma {:induction false} Selected(core: seq<Form>, cube: Cube, d: nat)
    requires Distinct(core)
    ensures forall l | l in Select(core, cube, d) :: l in cube && At(l, d) in core
    ensures forall l | l in cube && At(l, d) in core :: l in Select(core, cube, d)
    ensures forall i, j | 0 <= i < j < |Select(core, cube, d)| :: Select(core, cube, d)[i] != Select(core, cube, d)[j]
  {
    if |core| > 0 {
      var k := |core| - 1;
      Selected(core[..k], cube, d);
      assert core == core[..k] + [core[k]];
      forall l | l in cube && At(l, d) in core ensures l in Select(core, cube, d) {
        assert LitOf(At(l, d), d) == l;
      }
    }
  }

  /** Exactly the literals of the cube that the core has. */
  ghost predicate Named(c: Cube, cube: Cube, core: seq<Form>, d: nat) {
    forall l :: l in c <==> l in cube && At(l, d) in core
  }

  lemma SelectedNamed(core: seq<Form>, cube: Cube, d: nat)
    requires Distinct(core)
    ensures Named(Select(core, cube, d), cube, core, d)
  {
    Selected(core, cube, d);
  }

  // ---------------------------------------------------------------- what the solver calls say

  /** A frame's solver holds the transition relation and the frame's formulas. */
  ghost predicate SolverOk(sys: System, R: Frame, asserted: seq<Form>) {
    forall f :: f in asserted <==> f in R || f == sys.trans
  }

  lemma SolverModels(sys: System, R: Frame, asserted: seq<Form>, a: Assignment)
    requires SolverOk(sys, R, asserted)
    ensures Models(a, asserted) <==> InFrame(R, a) && Eval(sys.trans, a)
  {}

  /** Primed literals speak of the next state. */
  lemma PrimedLit(sys: System, l: Lit, a: Assignment)
    requires l.x < sys.n
    ensures Eval(At(l, sys.Shift()), a) <==> Eval(At(l, 0), Post(sys, a))
  {
    assert NextHas(sys, a, l.x) <==> l.x in Post(sys, a);
  }

  lemma PrimedCube(sys: System, c: Cube, a: Assignment)
    requires WellCube(sys.n, c)
    ensures Models(a, AllAt(c, sys.Shift())) <==> InCube(c, Post(sys, a))
  {
    var fs := AllAt(c, sys.Shift());
    forall i | 0 <= i < |c| ensures Eval(fs[i], a) <==> Eval(At(c[i], 0), Post(sys, a)) { PrimedLit(sys, c[i], a); }
    if Models(a, fs) {
      forall i | 0 <= i < |c| ensures Eval(At(c[i], 0), Post(sys, a)) { assert fs[i] in fs; }
    }
  }

  /** No model: the cube is relatively inductive. */
  lemma UnsatInductive(sys: System, R: Frame, asserted: seq<Form>, cube: Cube, core: seq<Form>)
    requires SolverOk(sys, R, asserted) && WellCube(sys.n, cube)
    requires Sound(Unsat(core), asserted + [Form.Not(Conj(cube))], AllAt(cube, sys.Shift()))
    ensures RelativelyInductive(sys, R, cube)
  {
    var all := asserted + [Form.Not(Conj(cube))];
    forall a | InFrame(R, a) && !InCube(cube, a) && Eval(sys.trans, a) ensures !InCube(cube, Post(sys, a)) {
      ConjMeaning(cube, a);
      SolverModels(sys, R, asserted, a);
      assert Models(a, all);
      PrimedCube(sys, cube, a);
    }
  }

  /** A core without the induction hypothesis is relatively inductive too. */
  lemma CoreInductive(sys: System, R: Frame, asserted: seq<Form>, cube: Cube, core: seq<Form>)
    requires SolverOk(sys, R, asserted) && WellCube(sys.n, cube)
    requires Sound(Unsat(core), asserted, AllAt(cube, sys.Shift()))
    ensures var c := Select(core, cube, sys.Shift());
            CoreOf(sys, R, cube, c) && Covers(c, cube) && RelativelyInductive(sys, R, c)
  {
    var d := sys.Shift();
    var c := Select(core, cube, d);
    Selected(core, cube, d);
    assert forall i | 0 <= i < |c| :: c[i] in c;
    forall a | InFrame(R, a) && Eval(sys.trans, a) ensures !InCube(c, Post(sys, a)) {
      SolverModels(sys, R, asserted, a);
      assert !Models(a, core);
      var f :| f in core && !Eval(f, a);
      CoreFalse(sys, cube, core, f, a);
    }
  }

  lemma ConjMeets(sys: System, c: Cube)
    ensures Disjoint(sys.init, Conj(c)) <==> !MeetsInit(sys, c)
  {
    forall a ensures Eval(Conj(c), a) <==> InCube(c, a) { ConjMeaning(c, a); }
  }

  lemma EnteredBy(sys: System, R: Frame, asserted: seq<Form>, cube: Cube, m: Assignment)
    requires SolverOk(sys, R, asserted) && WellCube(sys.n, cube)
    requires Sound(Sat(m), asserted, AllAt(cube, sys.Shift()))
    ensures EnteredFrom(sys, R, cube)
  {
    SolverModels(sys, R, asserted, m);
    PrimedCube(sys, cube, m);
  }

  lemma CoreFalse(sys: System, cube: Cube, core: seq<Form>, f: Form, a: Assignment)
    requires WellCube(sys.n, cube) && Distinct(core) && f in core && f in AllAt(cube, sys.Shift()) && !Eval(f, a)
    ensures !InCube(Select(core, cube, sys.Shift()), Post(sys, a))
  {
    var d := sys.Shift();
    var c := Select(core, cube, d);
    Selected(core, cube, d);
    var i :| 0 <= i < |cube| && AllAt(cube, d)[i] == f;
    assert cube[i] in c;
    var j :| 0 <= j < |c| && c[j] == cube[i];
    PrimedLit(sys, c[j], a);
  }

  /** A model: a predecessor of the cube. */
  lemma SatPredecessor(sys: System, R: Frame, asserted: seq<Form>, cube: Cube, m: Assignment)
    requires SolverOk(sys, R, asserted) && WellCube(sys.n, cube)
    requires Sound(Sat(m), asserted + [Form.Not(Conj(cube))], AllAt(cube, sys.Shift()))
    ensures InFrame(R, m) && Eval(sys.trans, m) && InCube(cube, Post(sys, m)) && !InCube(cube, m)
  {
    var all := asserted + [Form.Not(Conj(cube))];
    assert forall f | f in asserted :: f in all;
    assert Form.Not(Conj(cube)) in all;
    ConjMeaning(cube, m);
    SolverModels(sys, R, asserted, m);
    PrimedCube(sys, cube, m);
  }

  /** What is asked to shrink a predecessor: its next state, its state, and its inputs. */
  function MinimizeQuery(sys: System, m: Assignment): seq<Form> {
    AllAt(Literals(m, 0, sys.n, sys.Shift()), sys.Shift()) + AllAt(Literals(m, 0, sys.n, 0), 0)
    + AllAt(Literals(m, sys.n, sys.inputs, 0), 0)
  }

  lemma LiteralsFix(m: Assignment, lo: nat, len: nat, d: nat, b: Assignment)
    ensures Models(b, AllAt(Literals(m, lo, len, d), d)) <==>
            forall v: nat | lo + d <= v < lo + d + len :: v in b <==> v in m
  {
    var c := Literals(m, lo, len, d);
    var fs := AllAt(c, d);
    forall i | 0 <= i < len ensures Eval(fs[i], b) <==> (lo + i + d in b <==> lo + i + d in m) {}
    if Models(b, fs) {
      forall v: nat | lo + d <= v < lo + d + len ensures v in b <==> v in m { assert fs[v - lo - d] in fs; }
    }
    if forall v: nat | lo + d <= v < lo + d + len :: v in b <==> v in m {
      forall f | f in fs ensures Eval(f, b) {
        var i :| 0 <= i < len && fs[i] == f;
        assert lo + d <= lo + i + d < lo + d + len;
      }
    }
  }

  lemma MinimizeQueryFixes(sys: System, m: Assignment, b: Assignment)
    ensures Models(b, MinimizeQuery(sys, m)) <==> Agree(b, m, sys.Shift() + sys.n)
  {
    var x, y, z := AllAt(Literals(m, 0, sys.n, sys.Shift()), sys.Shift()), AllAt(Literals(m, 0, sys.n, 0), 0),
                   AllAt(Literals(m, sys.n, sys.inputs, 0), 0);
    LiteralsFix(m, 0, sys.n, sys.Shift(), b);
    LiteralsFix(m, 0, sys.n, 0, b);
    LiteralsFix(m, sys.n, sys.inputs, 0, b);
    assert Models(b, x + y + z) <==> Models(b, x) && Models(b, y) && Models(b, z) by {
      assert forall f :: f in x + y + z <==> f in x || f in y || f in z;
    }
  }

  /** The dual solver has no model: it would be one of the transition relation. */
  lemma DualUnsat(sys: System, m: Assignment, ans: Answer)
    requires sys.WellFormed() && Eval(sys.trans, m) && Sound(ans, [Form.Not(sys.trans)], MinimizeQuery(sys, m))
    ensures ans.Unsat?
  {
    assert Form.Not(sys.trans) in [Form.Not(sys.trans)];
    if ans.Sat? {
      MinimizeQueryFixes(sys, m, ans.model);
      EvalAgree(sys.trans, ans.model, m, sys.Shift() + sys.n);
    }
  }

  /** The literals of the state that are in the core step like the model does. */
  lemma MinimizedSteps(sys: System, m: Assignment, core: seq<Form>)
    requires Sound(Unsat(core), [Form.Not(sys.trans)], MinimizeQuery(sys, m))
    ensures var c := Select(core, Literals(m, 0, sys.n, 0), 0);
            WellCube(sys.n, c) && StepsLike(sys, c, m)
  {
    var cube := Literals(m, 0, sys.n, 0);
    var c := Select(core, cube, 0);
    Selected(core, cube, 0);
    assert forall i | 0 <= i < |c| :: c[i] in c;
    forall i | 0 <= i < |c| ensures Eval(At(c[i], 0), m) { assert c[i] in cube; }
    forall a | InCube(c, a) ensures Eval(sys.trans, Mix(sys.n, a, m)) {
      var b := Mix(sys.n, a, m);
      MinimizeQueryFixes(sys, m, m);
      forall f | f in core ensures Eval(f, b) { MixedCore(sys, m, core, a, f); }
      assert !Models(b, [Form.Not(sys.trans)]);
    }
  }

  lemma MixedCore(sys: System, m: Assignment, core: seq<Form>, a: Assignment, f: Form)
    requires Distinct(core) && f in core && f in MinimizeQuery(sys, m)
    requires InCube(Select(core, Literals(m, 0, sys.n, 0), 0), a)
    ensures Eval(f, Mix(sys.n, a, m))
  {
    var cube, b := Literals(m, 0, sys.n, 0), Mix(sys.n, a, m);
    var x, y, z := AllAt(Literals(m, 0, sys.n, sys.Shift()), sys.Shift()), AllAt(cube, 0),
                   AllAt(Literals(m, sys.n, sys.inputs, 0), 0);
    assert f in x || f in y || f in z;
    if f in y {
      SelectedTrue(core, cube, a, b, f, sys.n);
    } else {
      LiteralsFix(m, 0, sys.n, sys.Shift(), b);
      LiteralsFix(m, sys.n, sys.inputs, 0, b);
    }
  }

  lemma {:induction false} SelectedTrue(core: seq<Form>, cube: Cube, a: Assignment, b: Assignment, f: Form, n: nat)
    requires Distinct(core) && f in core && f in AllAt(cube, 0) && InCube(Select(core, cube, 0), a)
    requires Agree(a, b, n) && forall i | 0 <= i < |cube| :: cube[i].x < n
    ensures Eval(f, b)
  {
    var c := Select(core, cube, 0);
    Selected(core, cube, 0);
    var i :| 0 <= i < |cube| && AllAt(cube, 0)[i] == f;
    assert cube[i] in c;
    var j :| 0 <= j < |c| && c[j] == cube[i];
    EvalAgree(f, a, b, n);
  }

  /** What is asked to shrink a bad state: its state and its inputs. */
  function BadQuery(sys: System, m: Assignment): seq<Form> {
    AllAt(Literals(m, 0, sys.n, 0), 0) + AllAt(Literals(m, sys.n, sys.inputs, 0), 0)
  }

  lemma BadQueryFixes(sys: System, m: Assignment, b: Assignment)
    ensures Models(b, BadQuery(sys, m)) <==> Agree(b, m, sys.Shift())
  {
    var y, z := AllAt(Literals(m, 0, sys.n, 0), 0), AllAt(Literals(m, sys.n, sys.inputs, 0), 0);
    LiteralsFix(m, 0, sys.n, 0, b);
    LiteralsFix(m, sys.n, sys.inputs, 0, b);
    assert Models(b, y + z) <==> Models(b, y) && Models(b, z) by {
      assert forall f :: f in y + z <==> f in y || f in z;
    }
  }

  /** The good solver has no model: the state is bad. */
  lemma GoodUnsat(sys: System, rs: seq<Form>, m: Assignment, ans: Answer)
    requires sys.WellFormed() && Eval(sys.bad, m) && Sound(ans, [Form.Not(sys.bad)] + rs, BadQuery(sys, m))
    ensures ans.Unsat?
  {
    assert Form.Not(sys.bad) in [Form.Not(sys.bad)] + rs;
    if ans.Sat? {
      BadQueryFixes(sys, m, ans.model);
      EvalAgree(sys.bad, ans.model, m, sys.Shift());
    }
  }

  /** The root: a cube of bad states, as far as the frame reaches. */
  lemma RootOk(sys: System, R: Frame, rs: seq<Form>, m: Assignment, core: seq<Form>)
    requires (forall f :: f in rs <==> f in R) && (forall f | f in R :: Below(f, sys.n)) && InFrame(R, m)
    requires Eval(sys.bad, m) && Sound(Unsat(core), [Form.Not(sys.bad)] + rs, BadQuery(sys, m))
    ensures var c := Select(core, Literals(m, 0, sys.n, 0), 0);
            WellCube(sys.n, c) && BadIn(sys, R, c) && BadLike(sys, R, c, m)
  {
    var cube := Literals(m, 0, sys.n, 0);
    var c := Select(core, cube, 0);
    Selected(core, cube, 0);
    assert forall i | 0 <= i < |c| :: c[i] in c;
    forall i | 0 <= i < |c| ensures Eval(At(c[i], 0), m) { assert c[i] in cube; }
    forall a | InFrame(R, a) && InCube(c, a) ensures BadState(sys, a) && Eval(sys.bad, Mix(sys.n, a, m)) {
      var b := Mix(sys.n, a, m);
      FrameAgree(sys.n, R, a, b);
      forall f | f in core ensures Eval(f, b) { BadCore(sys, m, core, a, f); }
      var all := [Form.Not(sys.bad)] + rs;
      assert !Models(b, all);
      assert Agree(a, b, sys.n) && Eval(sys.bad, b);
    }
  }

  lemma BadCore(sys: System, m: Assignment, core: seq<Form>, a: Assignment, f: Form)
    requires Distinct(core) && f in core && f in BadQuery(sys, m)
    requires InCube(Select(core, Literals(m, 0, sys.n, 0), 0), a)
    ensures Eval(f, Mix(sys.n, a, m))
  {
    assert f in MinimizeQuery(sys, m);
    MixedCore(sys, m, core, a, f);
  }

  // ---------------------------------------------------------------- the obligation loop

  /** What the engine holds between two decisions: its frames and its heap. */
  datatype Config = Config(frames: seq<Frame>, goals: seq<Goal>)

  /** The states of the cube in the frame are bad with the inputs of m, which is one. */
  ghost predicate BadLike(sys: System, R: Frame, c: Cube, m: Assignment) {
    && InFrame(R, m) && Eval(sys.bad, m) && InCube(c, m)
    && forall a | InFrame(R, a) && InCube(c, a) :: Eval(sys.bad, Mix(sys.n, a, m))
  }

  /** A new frame, when the last one is safe. */
  ghost predicate Grows(sys: System, s: Config, s': Config) {
    && |s.frames| > 0 && s.goals == [] && NoRepeat(s.frames) && SafeFrame(sys, s.frames[|s.frames| - 1])
    && s' == Config(s.frames + [{}], [])
  }

  /** A cube of bad states in the last frame becomes the root obligation. */
  ghost predicate Unfolds(sys: System, s: Config, s': Config, root: Cube, m: Assignment) {
    && |s.frames| > 1 && s.goals == [] && NoRepeat(s.frames)
    && WellCube(sys.n, root) && BadLike(sys, s.frames[|s.frames| - 1], root, m)
    && s' == Config(s.frames, [Goal(root, NoParent, |s.frames| - 1)])
  }

  /** A state of the frame outside the cube that steps into it, and a cube of such states. */
  ghost predicate PredecessorOf(sys: System, R: Frame, cube: Cube, c: Cube, m: Assignment) {
    && InFrame(R, m) && Eval(sys.trans, m) && InCube(cube, Post(sys, m)) && !InCube(cube, m)
    && WellCube(sys.n, c) && StepsLike(sys, c, m)
  }

  /** A lowest obligation has the predecessor m, shrunk to c. */
  ghost predicate Descends(sys: System, s: Config, s': Config, i: nat, c: Cube, m: Assignment) {
    && i < |s.goals| && Lowest(s.goals, i) && 1 <= s.goals[i].level < |s.frames|
    && PredecessorOf(sys, s.frames[s.goals[i].level - 1], s.goals[i].cube, c, m)
    && s' == Config(s.frames, WithChild(s.goals, i, c))
  }

  /** A lowest obligation is blocked by c, and raised a level below the last one. */
  ghost predicate Rebuts(sys: System, s: Config, s': Config, i: nat, c: Cube, accepted: bool) {
    && i < |s.goals| && Lowest(s.goals, i) && Blocks(sys, s.frames, s.goals[i], c, accepted)
    && s' == Config(Blocked(s.frames, s.goals[i].level, ClauseOf(c)), Raised(s.goals, i, |s.frames| - 1))
  }

  /** One decision of the engine, for some sound answers of its solvers. */
  ghost predicate Moves(sys: System, s: Config, s': Config) {
    || Grows(sys, s, s') || (exists root, m :: Unfolds(sys, s, s', root, m))
    || (exists i, c, m :: Descends(sys, s, s', i, c, m)) || exists i, c, accepted :: Rebuts(sys, s, s', i, c, accepted)
  }

  ghost predicate IsRun(sys: System, run: seq<Config>) {
    && |run| > 0 && run[0] == Config([{sys.init}], [])
    && forall k | 0 <= k < |run| - 1 :: Linked(sys, run, k)
  }

  ghost predicate Linked(sys: System, run: seq<Config>, k: nat)
    requires k + 1 < |run|
  {
    Moves(sys, run[k], run[k + 1])
  }

  /** The engine can get here. */
  ghost predicate Reached(sys: System, s: Config) {
    exists run :: IsRun(sys, run) && run[|run| - 1] == s
  }

  lemma ReachedStart(sys: System)
    ensures Reached(sys, Config([{sys.init}], []))
  {
    var run := [Config([{sys.init}], [])];
    assert IsRun(sys, run) && run[|run| - 1] == run[0];
  }

  lemma ReachedNext(sys: System, s: Config, s': Config)
    requires Reached(sys, s) && Moves(sys, s, s') == true
    ensures Reached(sys, s')
  {
    var run :| IsRun(sys, run) && run[|run| - 1] == s;
    var more := run + [s'];
    forall k | 0 <= k < |more| - 1 ensures Linked(sys, more, k) {
      if k < |run| - 1 { assert Linked(sys, run, k); }
    }
    assert IsRun(sys, more) && more[|more| - 1] == s';
  }

  lemma ReachedGrown(sys: System, fs: seq<Frame>)
    requires Reached(sys, Config(fs, [])) == true && |fs| > 0 && NoRepeat(fs) && SafeFrame(sys, fs[|fs| - 1])
    ensures Reached(sys, Config(fs + [{}], []))
  {
    assert Grows(sys, Config(fs, []), Config(fs + [{}], []));
    ReachedNext(sys, Config(fs, []), Config(fs + [{}], []));
  }

  lemma ReachedRoot(sys: System, fs: seq<Frame>, root: Cube, m: Assignment)
    requires Reached(sys, Config(fs, [])) == true && |fs| > 1 && NoRepeat(fs)
    requires WellCube(sys.n, root) && BadLike(sys, fs[|fs| - 1], root, m)
    ensures Reached(sys, Config(fs, [Goal(root, NoParent, |fs| - 1)]))
  {
    assert Unfolds(sys, Config(fs, []), Config(fs, [Goal(root, NoParent, |fs| - 1)]), root, m);
    ReachedNext(sys, Config(fs, []), Config(fs, [Goal(root, NoParent, |fs| - 1)]));
  }

  lemma ReachedChild(sys: System, s: Config, s': Config, i: nat, c: Cube, m: Assignment)
    requires Reached(sys, s) == true && Descends(sys, s, s', i, c, m)
    ensures Reached(sys, s')
  {
    ReachedNext(sys, s, s');
  }

  lemma ReachedBlock(sys: System, fs: seq<Frame>, goals: seq<Goal>, i: nat, c: Cube, accepted: bool)
    requires Reached(sys, Config(fs, goals)) == true && i < |goals| && Lowest(goals, i)
             && Blocks(sys, fs, goals[i], c, accepted)
    ensures Reached(sys, Config(Blocked(fs, goals[i].level, ClauseOf(c)), Raised(goals, i, |fs| - 1)))
  {
    var s, s' := Config(fs, goals), Config(Blocked(fs, goals[i].level, ClauseOf(c)), Raised(goals, i, |fs| - 1));
    assert Rebuts(sys, s, s', i, c, accepted);
    ReachedNext(sys, s, s');
  }

  /** With an empty heap. */
  ghost predicate Idle(sys: System, fs: seq<Frame>, lost: Loss) {
    InOrder(sys, fs, lost) && Reached(sys, Config(fs, [])) == true
  }

  ghost predicate InOrder(sys: System, fs: seq<Frame>, lost: Loss) {
    FramesOk(sys, fs) && LostOk(sys, fs, lost)
  }

  /** What the loop keeps, for any order in which equal levels are taken. */
  ghost predicate LoopOk(sys: System, fs: seq<Frame>, root: Cube, goals: seq<Goal>, lost: Loss) {
    && InOrder(sys, fs, lost) && |fs| > 1 && BadIn(sys, fs[|fs| - 1], root)
    && GoalsOk(sys, fs, root, goals) && RootPending(fs, root, goals)
    && Reached(sys, Config(fs, goals)) == true
  }

  predicate Lowest(goals: seq<Goal>, i: nat)
    requires i < |goals|
  {
    forall h | h in goals :: goals[i].level <= h.level
  }

  /** The heap after a predecessor was found. */
  function WithChild(goals: seq<Goal>, i: nat, c: Cube): seq<Goal>
    requires i < |goals| && goals[i].level >= 1
  {
    Without(goals, i) + [Goal(c, Parent(goals[i]), goals[i].level - 1)] + [goals[i]]
  }

  /** The heap after an obligation was blocked below the last level N, or at it. */
  function Raised(goals: seq<Goal>, i: nat, N: nat): seq<Goal>
    requires i < |goals|
  {
    var g := goals[i];
    Without(goals, i) + if g.level < N then [Goal(g.cube, g.parent, g.level + 1)] else []
  }

  lemma WithoutMembers(goals: seq<Goal>, i: nat)
    requires i < |goals|
    ensures forall g | g in Without(goals, i) :: g in goals
    ensures forall g | g in goals && g != goals[i] :: g in Without(goals, i)
  {}

  lemma ChildKeepsLoop(sys: System, fs: seq<Frame>, root: Cube, goals: seq<Goal>, lost: Loss, i: nat, c: Cube,
                       m: Assignment)
    requires LoopOk(sys, fs, root, goals, lost) && i < |goals| && Lowest(goals, i) && goals[i].level >= 1
    requires Descends(sys, Config(fs, goals), Config(fs, WithChild(goals, i, c)), i, c, m)
    ensures LoopOk(sys, fs, root, WithChild(goals, i, c), lost)
    ensures Hot(fs, WithChild(goals, i, c), goals[i].level - 1)
  {
    var g, goals' := goals[i], WithChild(goals, i, c);
    var child := Goal(c, Parent(g), g.level - 1);
    WithoutMembers(goals, i);
    assert forall h | h in goals' :: h in goals || h == child;
    assert child in goals' && forall h | h in goals :: h in goals';
    ChildOk(sys, fs, root, g, c, m);
    ReachedChild(sys, Config(fs, goals), Config(fs, goals'), i, c, m);
    assert Meets(fs[g.level - 1], c);
  }

  /** What a cube that no state outside it steps into is generalized to. */
  ghost predicate InductiveBy(sys: System, R: Frame, cube: Cube, c: Cube, accepted: bool) {
    && WellCube(sys.n, c) && Covers(c, cube) && RelativelyInductive(sys, R, c)
    && Generalizes(sys, R, cube, c, accepted)
  }

  /** Blocking a cube that covers the obligation. */
  ghost predicate Blocks(sys: System, fs: seq<Frame>, g: Goal, c: Cube, accepted: bool) {
    1 <= g.level < |fs| && InductiveBy(sys, fs[g.level - 1], g.cube, c, accepted)
  }

  /** A part of the cube that no state of the frame steps into. */
  ghost predicate CoreOf(sys: System, R: Frame, cube: Cube, c: Cube) {
    && WellCube(sys.n, c) && (forall l | l in c :: l in cube)
    && forall a | InFrame(R, a) && Eval(sys.trans, a) :: !InCube(c, Post(sys, a))
  }

  /** What a cube is generalized to: a core that meets the initial states, or itself. */
  ghost predicate Generalizes(sys: System, R: Frame, cube: Cube, c: Cube, accepted: bool) {
    if accepted then CoreOf(sys, R, cube, c) && MeetsInit(sys, c)
    else c == cube && (EnteredFrom(sys, R, cube) || exists k :: CoreOf(sys, R, cube, k) && !MeetsInit(sys, k))
  }

  ghost predicate EnteredFrom(sys: System, R: Frame, cube: Cube) {
    exists a :: InFrame(R, a) && Eval(sys.trans, a) && InCube(cube, Post(sys, a))
  }

  lemma BlockKeepsLoop(sys: System, fs: seq<Frame>, root: Cube, goals: seq<Goal>, lost: Loss, i: nat, c: Cube,
                       accepted: bool)
    requires LoopOk(sys, fs, root, goals, lost) && i < |goals| && Lowest(goals, i)
             && Blocks(sys, fs, goals[i], c, accepted)
    ensures var f, N := goals[i].level, |fs| - 1;
            LoopOk(sys, Blocked(fs, f, ClauseOf(c)), root, Raised(goals, i, N), LostAfter(sys, lost, f, c, accepted))
  {
    var g, N := goals[i], |fs| - 1;
    var f := g.level;
    var fs', goals' := Blocked(fs, f, ClauseOf(c)), Raised(goals, i, N);
    assert GoalOk(sys, fs, root, g);
    BlockKeepsFrames(sys, fs, f, c);
    BadInMore(sys, fs[N], fs'[N], root);
    BlockKeepsLost(sys, fs, lost, g, c, accepted);
    BlockKeepsGoals(sys, fs, root, goals, i, c);
    ReachedBlock(sys, fs, goals, i, c, accepted);
  }

  lemma BlockKeepsLost(sys: System, fs: seq<Frame>, lost: Loss, g: Goal, c: Cube, accepted: bool)
    requires FramesOk(sys, fs) && LostOk(sys, fs, lost) && Blocks(sys, fs, g, c, accepted)
             && Excluded(fs[g.level - 1], g.cube)
    ensures LostOk(sys, Blocked(fs, g.level, ClauseOf(c)), LostAfter(sys, lost, g.level, c, accepted))
  {
    if MeetsInit(sys, c) {
      if !lost.accepted && !accepted { BlockObligation(sys, fs, lost, g.level, c); }
      BlockCore(sys, fs, lost, g.level, c, accepted);
    } else {
      BlockDisjointCore(sys, fs, lost, g.level, c);
    }
  }

  lemma BlockKeepsGoals(sys: System, fs: seq<Frame>, root: Cube, goals: seq<Goal>, i: nat, c: Cube)
    requires GoalsOk(sys, fs, root, goals) && RootPending(fs, root, goals) && i < |goals| && Lowest(goals, i)
    requires 1 <= goals[i].level < |fs| && Covers(c, goals[i].cube)
    ensures var fs' := Blocked(fs, goals[i].level, ClauseOf(c));
            GoalsOk(sys, fs', root, Raised(goals, i, |fs| - 1)) && RootPending(fs', root, Raised(goals, i, |fs| - 1))
  {
    var f := goals[i].level;
    var fs' := Blocked(fs, f, ClauseOf(c));
    assert AboveZero(goals);
    GoalsStay(sys, fs, fs', root, goals);
    BlockedExcludes(fs, f, c, goals[i].cube, f);
    RaisedOk(sys, fs', root, goals, i);
    RootStays(sys, fs, fs', root, goals, i);
  }

  lemma RaisedOk(sys: System, fs: seq<Frame>, root: Cube, goals: seq<Goal>, i: nat)
    requires i < |goals| && GoalsOk(sys, fs, root, goals) && goals[i].level >= 1
    requires goals[i].level < |fs| && Excluded(fs[goals[i].level], goals[i].cube)
    ensures GoalsOk(sys, fs, root, Raised(goals, i, |fs| - 1))
  {
    var g := goals[i];
    WithoutMembers(goals, i);
    assert GoalOk(sys, fs, root, g);
    if g.level < |fs| - 1 { assert GoalOk(sys, fs, root, Goal(g.cube, g.parent, g.level + 1)); }
  }

  lemma RootStays(sys: System, fs: seq<Frame>, fs': seq<Frame>, root: Cube, goals: seq<Goal>, i: nat)
    requires i < |goals| && GoalsOk(sys, fs', root, goals) && |fs| > 0 && Stronger(fs, fs')
             && RootPending(fs, root, goals)
    requires goals[i].level < |fs| && Excluded(fs'[goals[i].level], goals[i].cube)
    ensures RootPending(fs', root, Raised(goals, i, |fs| - 1))
  {
    WithoutMembers(goals, i);
    if r :| r in goals && r.parent.NoParent? {
      assert GoalOk(sys, fs', root, r);
      if r != goals[i] { assert r in Raised(goals, i, |fs| - 1); }
    } else {
      ExcludedMore(fs[|fs| - 1], fs'[|fs| - 1], root);
    }
  }

  /** Termination: a block loses a state if the obligation was hot, and slack otherwise. */
  lemma BlockProgress(sys: System, fs: seq<Frame>, goals: seq<Goal>, i: nat, c: Cube, top: nat)
    requires FrameForms(sys, fs) == true && i < |goals| && Lowest(goals, i) && Hot(fs, goals, top) == true
    requires goals[i].level < |fs| && WellCube(sys.n, goals[i].cube) && Covers(c, goals[i].cube)
    ensures Lower(sys.n, fs, goals, top, Blocked(fs, goals[i].level, ClauseOf(c)), Raised(goals, i, |fs| - 1), |fs|)
  {
    var g, N := goals[i], |fs| - 1;
    var f := g.level;
    var fs' := Blocked(fs, f, ClauseOf(c));
    WeightStronger(sys.n, fs, fs');
    RaisedSlack(goals, i, N);
    if top < |fs| { HotBlockLoses(sys, fs, goals, i, c, top); }
  }

  lemma ChildProgress(sys: System, fs: seq<Frame>, goals: seq<Goal>, i: nat, c: Cube, top: nat)
    requires |fs| > 0 && i < |goals| && 1 <= goals[i].level < |fs| && Lowest(goals, i) && Hot(fs, goals, top)
    ensures Lower(sys.n, fs, goals, top, fs, WithChild(goals, i, c), goals[i].level - 1)
  {}

  lemma ChildAdvances(sys: System, fs: seq<Frame>, root: Cube, goals: seq<Goal>, lost: Loss, i: nat, c: Cube,
                      m: Assignment, top: nat)
    requires LoopOk(sys, fs, root, goals, lost) == true && i < |goals| && Hot(fs, goals, top) == true
    requires Lowest(goals, i) == true && 1 <= goals[i].level < |fs|
    requires PredecessorOf(sys, fs[goals[i].level - 1], goals[i].cube, c, m) == true
    ensures Advances(sys, root, fs, goals, top, fs, WithChild(goals, i, c), lost, goals[i].level - 1) == true
  {
    StrongerRefl(fs);
    ChildKeepsLoop(sys, fs, root, goals, lost, i, c, m);
    ChildProgress(sys, fs, goals, i, c, top);
  }

  lemma BlockAdvances(sys: System, fs: seq<Frame>, root: Cube, goals: seq<Goal>, lost: Loss, i: nat, c: Cube,
                      accepted: bool, top: nat)
    requires LoopOk(sys, fs, root, goals, lost) == true && i < |goals| && Hot(fs, goals, top) == true
    requires Lowest(goals, i) && 1 <= goals[i].level < |fs| && WellCube(sys.n, goals[i].cube)
    requires InductiveBy(sys, fs[goals[i].level - 1], goals[i].cube, c, accepted) == true
    ensures var f := goals[i].level;
            Advances(sys, root, fs, goals, top, Blocked(fs, f, ClauseOf(c)), Raised(goals, i, |fs| - 1),
                     LostAfter(sys, lost, f, c, accepted), |fs|) == true
  {
    BlockKeepsLoop(sys, fs, root, goals, lost, i, c, accepted);
    BlockProgress(sys, fs, goals, i, c, top);
    BlockedStronger(fs, goals[i].level, ClauseOf(c));
  }

  lemma RaisedSlack(goals: seq<Goal>, i: nat, N: nat)
    requires i < |goals| && goals[i].level <= N
    ensures Slack(N, Raised(goals, i, N)) < Slack(N, goals)
  {
    SlackWithout(N, goals, i);
    var goals' := Raised(goals, i, N);
    if goals[i].level < N {
      var k := |goals'| - 1;
      SlackWithout(N, goals', k);
      assert Without(goals', k) == Without(goals, i);
    } else {
      assert goals' == Without(goals, i);
    }
  }

  lemma HotBlockLoses(sys: System, fs: seq<Frame>, goals: seq<Goal>, i: nat, c: Cube, top: nat)
    requires FrameForms(sys, fs) && i < |goals| && Lowest(goals, i) && Hot(fs, goals, top) && top < |fs|
    requires goals[i].level < |fs| && WellCube(sys.n, goals[i].cube) && Covers(c, goals[i].cube)
    ensures Weight(sys.n, Blocked(fs, goals[i].level, ClauseOf(c))) < Weight(sys.n, fs)
  {
    var g, f := goals[i], goals[i].level;
    assert f == top;
    BlockedExcludes(fs, f, c, g.cube, f);
    var a :| InFrame(fs[f], a) && InCube(g.cube, a);
    WeightLess(sys, fs, Blocked(fs, f, ClauseOf(c)), f, g.cube, a);
  }

  // ---------------------------------------------------------------- the engine

  /** A frame with its solver. */
  class State {
    var R: Frame
    var asserted: seq<Form>

    constructor (asserted: seq<Form>)
      ensures R == {} && this.asserted == asserted
    {
      R, this.asserted := {}, asserted;
    }

    method Add(clause: Form)
      modifies this
      ensures R == old(R) + {clause}
      ensures asserted == if clause in old(R) then old(asserted) else old(asserted) + [clause]
    {
      if clause !in R {
        R := R + {clause};
        asserted := asserted + [clause];
      }
    }
  }

  datatype Induction = Inductive(cube: Cube, accepted: bool) | Predecessor(cube: Cube, m: Assignment) | NoCore

  /** The result is the one that the next solver answers call for. */
  ghost predicate AnsweredBy(sys: System, o: Oracle, calls: nat, asserted: seq<Form>, cube: Cube, r: Induction) {
    match o(calls, asserted + [Form.Not(Conj(cube))], AllAt(cube, sys.Shift()))
    case Sat(m) =>
      var ans := o(calls + 1, [Form.Not(sys.trans)], MinimizeQuery(sys, m));
      ans.Unsat?
      && if ans.core == [] then r == NoCore
         else r.Predecessor? && r.m == m && Named(r.cube, Literals(m, 0, sys.n, 0), ans.core, 0)
    case Unsat(_) =>
      var ans := o(calls + 1, asserted, AllAt(cube, sys.Shift()));
      r.Inductive?
      && if r.accepted then ans.Unsat? && Named(r.cube, cube, ans.core, sys.Shift()) else r.cube == cube
  }

  ghost predicate Lists(rs: seq<Form>, R: Frame) {
    forall f :: f in rs <==> f in R
  }

  ghost predicate AllStateForms(n: nat, rs: seq<Form>) {
    forall f | f in rs :: Below(f, n)
  }

  /** A bad state of the frame's clauses, if the solver has one, cut down to its core. */
  ghost predicate UnfoldedBy(sys: System, o: Oracle, calls: nat, rs: seq<Form>, sat: bool, c: Cube, m: Assignment) {
    match o(calls, [sys.bad] + rs, [])
    case Sat(model) =>
      var ans := o(calls + 1, [Form.Not(sys.bad)] + rs, BadQuery(sys, m));
      sat && m == model && ans.Unsat? && Named(c, Literals(m, 0, sys.n, 0), ans.core, 0)
    case Unsat(_) => !sat
  }

  datatype BlockResult = Cleared | Found(goal: Goal) | Aborted

  /** A counterexample is real; without a core every state steps. */
  ghost predicate Justified(sys: System, r: BlockResult) {
    (r.Found? ==> Counterexample(sys, r.goal)) && (r.Aborted? ==> AlwaysSteps(sys))
  }

  datatype Outcome =
    | GoalInInitial
    | Invariant(R: Frame)
    | Trace(goal: Goal)
    | AssertionFailed

  class MiniIC3 {
    const sys: System
    const oracle: Oracle
    var states: seq<State>
    var goals: seq<Goal>
    var calls: nat
    /** The frames that lack an initial state. */
    ghost var lost: Loss
    /** The clauses of the states. */
    ghost var frames: seq<Frame>

    /** The solvers and the list of frames are in step. */
    ghost predicate SolversOk()
      reads this`states, this`frames, states
    {
      && |frames| == |states| && (forall i, j | 0 <= i < j < |states| :: states[i] != states[j])
      && forall i | 0 <= i < |states| :: states[i].R == frames[i] && SolverOk(sys, frames[i], states[i].asserted)
    }

    ghost predicate Valid()
      reads this`states, this`frames, this`lost, states
    {
      Sensible() && SolversOk() && InOrder(sys, frames, lost)
    }

    ghost predicate Sensible() {
      sys.WellFormed() && SoundOracle(oracle)
    }

    constructor (sys: System, oracle: Oracle)
      requires sys.WellFormed() && SoundOracle(oracle)
      ensures this.sys == sys && this.oracle == oracle && goals == [] && lost == Loss(0, false)
      ensures |states| == 1 && fresh(states[0])
      ensures Valid() == true && frames == [{sys.init}]
    {
      this.sys, this.oracle, goals, calls, lost := sys, oracle, [], 0, Loss(0, false);
      var s := new State([]);
      states, frames := [s], [{sys.init}];
      new;
      s.Add(sys.init);
      s.asserted := s.asserted + [sys.trans];
      assert s.R == {sys.init};
    }

    method Check(asserted: seq<Form>, assumptions: seq<Form>) returns (ans: Answer)
      requires SoundOracle(oracle)
      modifies this`calls
      ensures Sound(ans, asserted, assumptions) && ans == oracle(old(calls), asserted, assumptions)
      ensures calls == old(calls) + 1
    {
      ans := oracle(calls, asserted, assumptions);
      calls := calls + 1;
    }

    method CheckDisjoint(a: Form, b: Form) returns (disjoint: bool)
      requires SoundOracle(oracle)
      modifies this`calls
      ensures disjoint <==> Disjoint(a, b)
    {
      var ans := Check([a, b], []);
      disjoint := ans.Unsat?;
      DisjointAnswer(a, b, ans);
    }

    method AddSolver()
      requires Valid() && SafeFrame(sys, frames[|states| - 1])
      modifies this`states, this`frames
      ensures |states| == old(|states|) + 1 && frames == old(frames) + [{}] && Valid() == true
      ensures forall i | 0 <= i < |states| :: states[i] in old(states) || fresh(states[i])
    {
      FrameAdded(sys, frames, lost);
      var s := new State([sys.trans]);
      states, frames := states + [s], frames + [{}];
    }

    /** Adds a clause to levels 0 to i. */
    method AssertClause(i: nat, clause: Form)
      requires SolversOk() && i < |states|
      modifies this`frames, states
      ensures SolversOk() == true && frames == Blocked(old(frames), i, clause)
    {
      for j := 0 to i + 1
        invariant SolversOk()
        invariant forall k | 0 <= k < |states| ::
          frames[k] == if k < j then old(frames)[k] + {clause} else old(frames)[k]
      {
        states[j].Add(clause);
        frames := frames[j := frames[j] + {clause}];
      }
    }

    /** Drops clauses implied by the others: the meaning stays, and no clause left is
        implied. */
    method Prune(R: Frame) returns (R': Frame)
      requires SoundOracle(oracle)
      modifies this`calls
      ensures R' <= R && (forall a :: InFrame(R', a) <==> InFrame(R, a)) && forall f | f in R' :: Needed(R', f)
    {
      var removed, rest := {}, R;
      while rest != {}
        invariant rest <= R && removed <= R && removed !! rest
        invariant forall a :: InFrame(R - removed, a) <==> InFrame(R, a)
        invariant forall f | f in R - removed && f !in rest :: Needed(R - removed, f)
        decreases rest
      {
        var f1 :| f1 in rest;
        rest := rest - {f1};
        var others := Listed(R - removed - {f1});
        var ans := Check(others + [Form.Not(f1)], []);
        if ans.Unsat? {
          ClauseImplied(R - removed, f1, others, ans.core);
          assert R - removed - {f1} == R - (removed + {f1});
          StillNeeded(R - removed, f1);
          removed := removed + {f1};
        } else {
          ClauseNeeded(R - removed, f1, others, ans.model);
        }
      }
      R' := R - removed;
    }

    /** Two neighbouring frames with the same clauses make an invariant. */
    method IsValid() returns (found: bool, R: Frame, ghost at: nat)
      requires Valid()
      modifies this`calls
      ensures found ==> Repeats(frames, at) && SameStates(frames[at], R) && R <= Clauses(sys.n)
      ensures found ==> SafeInvariant(sys, R) && (Initiated(sys, R) <==> at >= lost.frames)
      ensures found ==> forall j | 1 <= j < at :: !(frames[j] <= frames[j + 1])
      ensures !found ==> NoRepeat(frames) == true
    {
      var i := 1;
      while i + 1 < |states|
        invariant 1 <= i && forall j | 1 <= j < i && j < |frames| - 1 :: !(frames[j] <= frames[j + 1])
      {
        NoDifference(states[i].R, states[i + 1].R);
        if states[i].R - states[i + 1].R == {} {
          RepeatedFrame(sys, frames, i);
          R := Prune(states[i].R);
          SameInvariant(sys, states[i].R, R);
          return true, R, i;
        }
        i := i + 1;
      }
      return false, {}, 0;
    }

    /** A cube of bad states in the last frame, if there is one. */
    method Unfold() returns (sat: bool, core: Cube, ghost m: Assignment, ghost rs: seq<Form>)
      requires Valid()
      modifies this`calls
      ensures !sat ==> SafeFrame(sys, frames[|states| - 1]) == true
      ensures sat ==> WellCube(sys.n, core) == true && BadIn(sys, frames[|states| - 1], core) == true
      ensures sat ==> BadLike(sys, frames[|states| - 1], core, m) == true
      ensures Lists(rs, frames[|states| - 1]) == true
      ensures UnfoldedBy(sys, oracle, old(calls), rs, sat, core, m) == true
    {
      var list := Listed(states[|states| - 1].R);
      rs := list;
      var ans := Check([sys.bad] + list, []);
      LastFrame(sys, frames, list, ans);
      if ans.Unsat? {
        return false, [], {}, rs;
      }
      sat, m := true, ans.model;
      assert Lists(list, frames[|states| - 1]);
      core := BadCube(list, ans.model);
    }

    /** Shrinks a bad state to what makes it bad in the frame. */
    method BadCube(rs: seq<Form>, m: Assignment) returns (c: Cube)
      requires Sensible() && Eval(sys.bad, m) && AllStateForms(sys.n, rs) && Models(m, rs)
      modifies this`calls
      ensures forall R: Frame | Lists(rs, R) :: WellCube(sys.n, c) && BadIn(sys, R, c) && BadLike(sys, R, c, m)
      ensures var ans := oracle(old(calls), [Form.Not(sys.bad)] + rs, BadQuery(sys, m));
              ans.Unsat? && Named(c, Literals(m, 0, sys.n, 0), ans.core, 0)
    {
      var ans := Check([Form.Not(sys.bad)] + rs, BadQuery(sys, m));
      GoodUnsat(sys, rs, m, ans);
      forall R: Frame | Lists(rs, R)
        ensures var c := Select(ans.core, Literals(m, 0, sys.n, 0), 0);
                WellCube(sys.n, c) && BadIn(sys, R, c) && BadLike(sys, R, c, m)
      {
        RootOk(sys, R, rs, m, ans.core);
      }
      SelectedNamed(ans.core, Literals(m, 0, sys.n, 0), 0);
      c := Select(ans.core, Literals(m, 0, sys.n, 0), 0);
    }

    /** Shrinks a predecessor to what makes it step. */
    method MinimizeCube(m: Assignment) returns (ok: bool, c: Cube)
      requires sys.WellFormed() && SoundOracle(oracle) && Eval(sys.trans, m)
      modifies this`calls
      ensures ok ==> WellCube(sys.n, c) && StepsLike(sys, c, m)
      ensures !ok ==> AlwaysSteps(sys)
      ensures var ans := oracle(old(calls), [Form.Not(sys.trans)], MinimizeQuery(sys, m));
              ans.Unsat? && (ok <==> ans.core != []) && Named(c, Literals(m, 0, sys.n, 0), ans.core, 0)
    {
      var ans := Check([Form.Not(sys.trans)], MinimizeQuery(sys, m));
      DualUnsat(sys, m, ans);
      ok := ans.core != [];
      if ok {
        MinimizedSteps(sys, m, ans.core);
      } else {
        EmptyCore(sys, ans.core);
      }
      SelectedNamed(ans.core, Literals(m, 0, sys.n, 0), 0);
      c := Select(ans.core, Literals(m, 0, sys.n, 0), 0);
    }

    /** A core of the cube, if it meets the initial states; the cube itself otherwise. */
    method Generalize(cube: Cube, f: nat) returns (c: Cube, accepted: bool)
      requires Sensible() && SolversOk() && 1 <= f < |states| && WellCube(sys.n, cube)
               && RelativelyInductive(sys, frames[f - 1], cube)
      modifies this`calls
      ensures WellCube(sys.n, c) && Covers(c, cube) && RelativelyInductive(sys, frames[f - 1], c)
      ensures Generalizes(sys, frames[f - 1], cube, c, accepted) == true
      ensures var ans := oracle(old(calls), states[f - 1].asserted, AllAt(cube, sys.Shift()));
              && (accepted <==> ans.Unsat? && !Disjoint(sys.init, Conj(Select(ans.core, cube, sys.Shift()))))
              && (accepted ==> Named(c, cube, ans.core, sys.Shift()))
    {
      var s := states[f - 1];
      var ans := Check(s.asserted, AllAt(cube, sys.Shift()));
      if ans.Unsat? {
        c := Select(ans.core, cube, sys.Shift());
        SelectedNamed(ans.core, cube, sys.Shift());
        CoreInductive(sys, s.R, s.asserted, cube, ans.core);
        var disjoint := CheckDisjoint(sys.init, Conj(c));
        ConjMeets(sys, c);
        if !disjoint {
          return c, true;
        }
      } else {
        EnteredBy(sys, s.R, s.asserted, cube, ans.model);
      }
      return cube, false;
    }

    /** Blocks a cube up to level i. */
    method BlockCube(i: nat, cube: Cube)
      requires SolversOk() && i < |states|
      modifies this`frames, states
      ensures SolversOk() == true && frames == Blocked(old(frames), i, ClauseOf(cube))
    {
      AssertClause(i, ClauseOf(cube));
    }

    /** Is the cube unreachable in one step from the frame below, outside itself? */
    method IsInductive(f: nat, cube: Cube) returns (r: Induction)
      requires Sensible() && SolversOk() && 1 <= f < |states| && WellCube(sys.n, cube)
      modifies this`calls
      ensures SolversOk() == true
      ensures match r
              case Inductive(c, accepted) => InductiveBy(sys, frames[f - 1], cube, c, accepted) == true
              case Predecessor(c, m) => PredecessorOf(sys, frames[f - 1], cube, c, m) == true
              case NoCore => AlwaysSteps(sys)
      ensures AnsweredBy(sys, oracle, old(calls), states[f - 1].asserted, cube, r) == true
    {
      var s := states[f - 1];
      var ans := Check(s.asserted + [Form.Not(Conj(cube))], AllAt(cube, sys.Shift()));
      if ans.Sat? {
        SatPredecessor(sys, s.R, s.asserted, cube, ans.model);
        var ok, c := MinimizeCube(ans.model);
        r := if ok then Predecessor(c, ans.model) else NoCore;
      } else {
        UnsatInductive(sys, s.R, s.asserted, cube, ans.core);
        var c, accepted := Generalize(cube, f);
        r := Inductive(c, accepted);
      }
    }

    /** Some goal of the lowest level, whichever the heap yields. */
    method PopHeap() returns (g: Goal, ghost i: nat)
      requires |goals| > 0
      modifies this`goals
      ensures i < |old(goals)| && g == old(goals)[i] && Lowest(old(goals), i) && goals == Without(old(goals), i)
    {
      HasLowest(goals);
      var k: nat :| k < |goals| && Lowest(goals, k);
      g, i := goals[k], k;
      goals := Without(goals, k);
    }

    method PushHeap(g: Goal)
      modifies this`goals
      ensures goals == old(goals) + [g] && (old(SolversOk()) ==> SolversOk() == true)
    {
      goals := goals + [g];
    }

    /** Handles one obligation above level 0. */
    method Handle(g: Goal, f0: nat, ghost i: nat, ghost before: seq<Goal>, ghost root: Cube, ghost top: nat)
      returns (aborted: bool, ghost top': nat, ghost r: Induction)
      requires Sensible() == true && SolversOk() == true && f0 == |states| - 1
               && LoopOk(sys, frames, root, before, lost) == true
      requires i < |before| && before[i] == g && Lowest(before, i) && goals == Without(before, i)
               && 1 <= g.level < |states|
      requires Hot(frames, before, top) == true
      modifies this`calls, this`goals, this`lost, this`frames, states
      ensures SolversOk() == true
      ensures aborted ==> AlwaysSteps(sys) == true && frames == old(frames) && lost == old(lost)
      ensures !aborted ==> Advances(sys, root, old(frames), before, top, frames, goals, lost, top') == true
      ensures AnsweredBy(sys, oracle, old(calls), old(states[g.level - 1].asserted), g.cube, r) == true
      ensures aborted <==> r.NoCore?
      ensures !aborted ==> Decided(old(frames), before, i, r, frames, goals) == true
    {
      PoppedOk(sys, frames, root, before, lost, i);
      var res := IsInductive(g.level, g.cube);
      r := res;
      match res
      case NoCore =>
        aborted, top' := true, top;
      case Predecessor(c, m) =>
        Descend(g, c, m, i, before, root, top);
        aborted, top' := false, g.level - 1;
      case Inductive(c, accepted) =>
        Refute(g, c, accepted, f0, i, before, root, top);
        aborted, top' := false, |frames|;
    }

    /** The obligation has a predecessor, to be discharged first. */
    method Descend(g: Goal, c: Cube, ghost m: Assignment, ghost i: nat, ghost before: seq<Goal>, ghost root: Cube,
                   ghost top: nat)
      requires SolversOk() == true && LoopOk(sys, frames, root, before, lost) == true
               && Hot(frames, before, top) == true
      requires i < |before| && before[i] == g && Lowest(before, i) == true && goals == Without(before, i)
               && 1 <= g.level < |frames|
      requires PredecessorOf(sys, frames[g.level - 1], g.cube, c, m) == true
      modifies this`goals
      ensures SolversOk() == true
      ensures goals == WithChild(before, i, c)
      ensures Advances(sys, root, frames, before, top, frames, goals, lost, g.level - 1) == true
    {
      ChildAdvances(sys, frames, root, before, lost, i, c, m, top);
      PushChild(g, c, i, before);
    }

    method PushChild(g: Goal, c: Cube, ghost i: nat, ghost before: seq<Goal>)
      requires SolversOk() == true
      requires i < |before| && before[i] == g && goals == Without(before, i) && g.level >= 1
      modifies this`goals
      ensures SolversOk() == true && goals == WithChild(before, i, c)
    {
      PushHeap(Goal(c, Parent(g), g.level - 1));
      PushHeap(g);
    }

    /** The obligation is unreachable: blocks the cube, and asks again one level up. */
    method Refute(g: Goal, c: Cube, ghost accepted: bool, f0: nat, ghost i: nat, ghost before: seq<Goal>,
                  ghost root: Cube, ghost top: nat)
      requires Sensible() == true && SolversOk() == true && f0 == |states| - 1
               && LoopOk(sys, frames, root, before, lost) == true
      requires i < |before| && before[i] == g && Lowest(before, i) && goals == Without(before, i)
               && WellCube(sys.n, g.cube)
      requires Hot(frames, before, top) == true && 1 <= g.level < |frames|
      requires InductiveBy(sys, frames[g.level - 1], g.cube, c, accepted) == true
      modifies this`goals, this`lost, this`frames, states
      ensures SolversOk() == true
      ensures frames == Blocked(old(frames), g.level, ClauseOf(c)) && goals == Raised(before, i, |frames| - 1)
      ensures Advances(sys, root, old(frames), before, top, frames, goals, lost, |frames|) == true
    {
      BlockAdvances(sys, frames, root, before, lost, i, c, accepted, top);
      BlockAndRaise(g, c, accepted, f0);
    }

    method BlockAndRaise(g: Goal, c: Cube, ghost accepted: bool, f0: nat)
      requires SolversOk() == true && g.level < |states|
      modifies this`goals, this`lost, this`frames, states
      ensures SolversOk() == true && frames == Blocked(old(frames), g.level, ClauseOf(c))
      ensures goals == old(goals) + if g.level < f0 then [Goal(g.cube, g.parent, g.level + 1)] else []
      ensures lost == LostAfter(sys, old(lost), g.level, c, accepted)
    {
      BlockCube(g.level, c);
      lost := LostAfter(sys, lost, g.level, c, accepted);
      if g.level < f0 {
        PushHeap(Goal(g.cube, g.parent, g.level + 1));
      }
    }

    /** Discharges the obligation that the root cube be unreachable, or finds a trace. */
    method Ic3Blocked(s0: Cube, f0: nat, ghost m: Assignment) returns (r: BlockResult)
      requires Sensible() == true && SolversOk() == true && Idle(sys, frames, lost) == true && goals == []
               && f0 == |states| - 1 >= 1 && NoRepeat(frames) == true
      requires WellCube(sys.n, s0) == true && BadIn(sys, frames[f0], s0) == true
               && BadLike(sys, frames[f0], s0, m) == true
      modifies this`calls, this`goals, this`lost, this`frames, states
      ensures SolversOk() == true && InOrder(sys, frames, lost) == true
      ensures Stronger(old(frames), frames) == true
      ensures Justified(sys, r) == true
      ensures r == Cleared ==> goals == [] && Idle(sys, frames, lost) == true && Excluded(frames[f0], s0) == true
    {
      PushRoot(s0, f0, m);
      r := Discharge(s0, f0);
      if r.Cleared? {
        LoopEnds(sys, frames, s0, lost);
      }
    }

    method PushRoot(s0: Cube, f0: nat, ghost m: Assignment)
      requires SolversOk() == true && Idle(sys, frames, lost) == true && goals == []
               && f0 == |frames| - 1 >= 1 && NoRepeat(frames) == true
      requires WellCube(sys.n, s0) == true && BadIn(sys, frames[f0], s0) == true
               && BadLike(sys, frames[f0], s0, m) == true
      modifies this`goals
      ensures SolversOk() == true && LoopOk(sys, frames, s0, goals, lost) == true
    {
      RootStarts(sys, frames, s0, lost, m);
      PushHeap(Goal(s0, NoParent, f0));
    }

    /** The loop over the heap. */
    method Discharge(s0: Cube, f0: nat) returns (r: BlockResult)
      requires Sensible() == true && SolversOk() == true && LoopOk(sys, frames, s0, goals, lost) == true
      requires f0 == |states| - 1
      modifies this`calls, this`goals, this`lost, this`frames, states
      ensures SolversOk() == true && Stronger(old(frames), frames) == true && InOrder(sys, frames, lost) == true
      ensures Justified(sys, r) == true
      ensures r == Cleared ==> goals == [] && LoopOk(sys, frames, s0, [], lost) == true
    {
      StrongerRefl(frames);
      ghost var top: nat := |frames|;
      LoopInOrder(sys, frames, s0, goals, lost);
      while |goals| > 0
        invariant SolversOk() == true && LoopOk(sys, frames, s0, goals, lost) == true && Hot(frames, goals, top) == true
        invariant Stronger(old(frames), frames) == true
        decreases Weight(sys.n, frames), Capped(frames, top), Slack(f0, goals)
      {
        ghost var fs := frames;
        LoopInOrder(sys, frames, s0, goals, lost);
        r, top := NextObligation(s0, f0, top);
        if r != Cleared {
          return;
        }
        StrongerTrans(old(frames), fs, frames);
      }
      LoopInOrder(sys, frames, s0, goals, lost);
      return Cleared;
    }

    /** One round of the loop: Cleared if the obligation taken is dealt with. */
    method NextObligation(s0: Cube, f0: nat, ghost top: nat) returns (r: BlockResult, ghost top': nat)
      requires Sensible() == true && SolversOk() == true && f0 == |states| - 1 && |goals| > 0
      requires LoopOk(sys, frames, s0, goals, lost) == true && Hot(frames, goals, top) == true
      modifies this`calls, this`goals, this`lost, this`frames, states
      ensures SolversOk() == true
      ensures r == Cleared ==> Advances(sys, s0, old(frames), old(goals), top, frames, goals, lost, top') == true
      ensures r != Cleared ==> frames == old(frames) && lost == old(lost)
      ensures Justified(sys, r) == true
    {
      ghost var before := goals;
      ghost var i;
      var g;
      g, i := PopHeap();
      PoppedOk(sys, frames, s0, before, lost, i);
      top' := top;
      if g.level == 0 {
        GoalReturned(sys, frames, s0, g);
        return Found(g), top;
      }
      var aborted;
      ghost var res;
      aborted, top', res := Handle(g, f0, i, before, s0, top);
      r := if aborted then Aborted else Cleared;
    }

    /** Clearing a bad cube loses a state of the last frame. */
    method ClearCube(cube: Cube, level: nat, ghost m: Assignment) returns (r: BlockResult)
      requires Sensible() == true && SolversOk() == true && Idle(sys, frames, lost) == true
      requires goals == [] && level == |states| - 1 >= 1 && NoRepeat(frames) == true
      requires WellCube(sys.n, cube) == true && BadIn(sys, frames[level], cube) == true
               && BadLike(sys, frames[level], cube, m) == true
      modifies this`calls, this`goals, this`lost, this`frames, states
      ensures SolversOk() == true && InOrder(sys, frames, lost) == true
      ensures Justified(sys, r) == true
      ensures r == Cleared ==>
                goals == [] && Idle(sys, frames, lost) == true && Weight(sys.n, frames) < Weight(sys.n, old(frames))
                && |frames| == |old(frames)| && Excluded(frames[level], cube) == true
    {
      ghost var fs := frames;
      r := Ic3Blocked(cube, level, m);
      if r.Cleared? { WeightLess(sys, fs, frames, level, cube, m); }
    }

    /** Grows frames and clears bad cubes until a frame repeats or a trace is found. */
    method Run() returns (r: Outcome, ghost at: nat)
      requires Sensible() == true && SolversOk() == true && InOrder(sys, frames, lost) == true && |states| == 1
               && frames == [{sys.init}]
               && goals == [] && lost == Loss(0, false)
      modifies this, states
      ensures r.GoalInInitial? <==> !Disjoint(sys.init, sys.bad)
      ensures match r
              case GoalInInitial => true
              case Invariant(R) =>
                && SafeInvariant(sys, R) && (forall f | f in R :: Below(f, sys.n))
                && (Initiated(sys, R) <==> at >= lost.frames) && (lost.accepted <==> lost.frames > 0)
                && Reached(sys, Config(frames, [])) && Repeats(frames, at) && SameStates(frames[at], R)
              case Trace(g) => Counterexample(sys, g)
              case AssertionFailed => AlwaysSteps(sys)
    {
      var disjoint := CheckDisjoint(sys.init, sys.bad);
      if !disjoint {
        return GoalInInitial, 0;
      }
      ReachedStart(sys);
      var level := 0;
      while true
        invariant SolversOk() == true && Idle(sys, frames, lost) == true && goals == [] && level == |states| - 1
        invariant |states| <= |Clauses(sys.n)| + 3
        invariant forall i | 0 <= i < |states| :: states[i] in old(states) || fresh(states[i])
        decreases |Clauses(sys.n)| + 3 - |states|, Weight(sys.n, frames)
      {
        var found, inv;
        found, inv, at := IsValid();
        if found {
          InvariantForms(sys.n, inv);
          return Invariant(inv), at;
        }
        RoomForFrame(sys, frames);
        var res;
        ghost var sat, cube, m, rs;
        res, level, sat, cube, m, rs := Advance(level);
        match res {
          case Found(g) => return Trace(g), at;
          case Aborted => return AssertionFailed, at;
          case Cleared =>
        }
      }
    }

    /** A new frame when the last one is safe. */
    method Grow()
      requires Sensible() == true && SolversOk() == true && Idle(sys, frames, lost) == true
      requires NoRepeat(frames) == true && SafeFrame(sys, frames[|states| - 1]) == true
      modifies this`states, this`frames
      ensures SolversOk() == true && Idle(sys, frames, lost) == true && |states| == old(|states|) + 1
      ensures frames == old(frames) + [{}]
      ensures forall i | 0 <= i < |states| :: states[i] in old(states) || fresh(states[i])
    {
      ReachedGrown(sys, frames);
      AddSolver();
    }

    /** One round of the main loop: a new frame if the last one is safe, fewer states if not. */
    method Advance(level: nat)
      returns (r: BlockResult, level': nat, ghost sat: bool, ghost c: Cube, ghost m: Assignment, ghost rs: seq<Form>)
      requires Sensible() == true && SolversOk() == true && Idle(sys, frames, lost) == true
      requires goals == [] && level == |states| - 1 && Disjoint(sys.init, sys.bad) == true && NoRepeat(frames) == true
      modifies this`calls, this`goals, this`lost, this`states, this`frames, states
      ensures SolversOk() == true && InOrder(sys, frames, lost) == true && level' == |states| - 1
      ensures forall i | 0 <= i < |states| :: states[i] in old(states) || fresh(states[i])
      ensures Justified(sys, r) == true
      ensures r == Cleared ==>
                goals == [] && Idle(sys, frames, lost) == true
                && (level' == level + 1 || (level' == level && Weight(sys.n, frames) < Weight(sys.n, old(frames))))
      ensures Lists(rs, old(frames[level])) == true && UnfoldedBy(sys, oracle, old(calls), rs, sat, c, m) == true
      ensures !sat ==> r == Cleared && frames == old(frames) + [{}]
      ensures sat && r == Cleared ==> level < |frames| && Excluded(frames[level], c) == true
    {
      FirstFrameSafe(sys, frames);
      var found, cube;
      found, cube, m, rs := Unfold();
      sat, c := found, cube;
      if found {
        r := ClearCube(cube, level, m);
        level' := level;
      } else {
        Grow();
        r, level' := Cleared, level + 1;
      }
    }
  }

  lemma {:induction false} HasLowest(goals: seq<Goal>)
    requires |goals| > 0
    ensures exists i: nat :: i < |goals| && Lowest(goals, i)
  {
    var k := |goals| - 1;
    if k == 0 {
      assert Lowest(goals, 0);
    } else {
      HasLowest(goals[..k]);
      var i: nat :| i < k && Lowest(goals[..k], i);
      assert goals == goals[..k] + [goals[k]];
      if goals[i].level <= goals[k].level { assert Lowest(goals, i); } else { assert Lowest(goals, k); }
    }
  }

  lemma LoopInOrder(sys: System, fs: seq<Frame>, root: Cube, goals: seq<Goal>, lost: Loss)
    requires LoopOk(sys, fs, root, goals, lost)
    ensures InOrder(sys, fs, lost) == true && |fs| > 1
  {}

  lemma LoopEnds(sys: System, fs: seq<Frame>, root: Cube, lost: Loss)
    requires LoopOk(sys, fs, root, [], lost) == true
    ensures Idle(sys, fs, lost) == true && Excluded(fs[|fs| - 1], root) == true
  {}

  lemma PoppedOk(sys: System, fs: seq<Frame>, root: Cube, goals: seq<Goal>, lost: Loss, i: nat)
    requires i < |goals| && LoopOk(sys, fs, root, goals, lost)
    ensures GoalOk(sys, fs, root, goals[i]) == true && goals[i].level < |fs| && WellCube(sys.n, goals[i].cube) == true
    ensures FramesOk(sys, fs) == true
  {
    assert goals[i] in goals;
  }

  lemma RootStarts(sys: System, fs: seq<Frame>, root: Cube, lost: Loss, m: Assignment)
    requires Idle(sys, fs, lost) == true && NoRepeat(fs) == true && |fs| > 1 && WellCube(sys.n, root)
             && BadIn(sys, fs[|fs| - 1], root) && BadLike(sys, fs[|fs| - 1], root, m)
    ensures LoopOk(sys, fs, root, [Goal(root, NoParent, |fs| - 1)], lost) == true
  {
    var N := |fs| - 1;
    var g := Goal(root, NoParent, N);
    assert SafeFrame(sys, fs[N - 1]);
    forall a | InFrame(fs[N - 1], a) ensures !InCube(root, a) {
      InFrameMono(fs[N - 1], fs[N], a);
      if InCube(root, a) {
        var b :| Agree(a, b, sys.n) && Eval(sys.bad, b);
        FrameAgree(sys.n, fs[N - 1], a, b);
      }
    }
    assert g in [g];
    ReachedRoot(sys, fs, root, m);
  }

  lemma InvariantForms(n: nat, R: Frame)
    requires R <= Clauses(n)
    ensures forall f | f in R :: Below(f, n)
  {
    forall f | f in R ensures Below(f, n) {
      var c :| c in LitSeqs(Lits(n), |Lits(n)|) && f == ClauseOf(c);
      SeqLits(Lits(n), |Lits(n)|, c);
      assert forall i | 0 <= i < |c| :: c[i] in c;
      ClauseBelow(n, c);
    }
  }

  lemma {:induction false} SeqLits(ls: set<Lit>, len: nat, c: Cube)
    requires c in LitSeqs(ls, len)
    ensures forall l | l in c :: l in ls
  {
    if len > 0 && c !in LitSeqs(ls, len - 1) {
      var c', l :| c' in LitSeqs(ls, len - 1) && l in ls && c == c' + [l];
      SeqLits(ls, len - 1, c');
    } else if len > 0 {
      SeqLits(ls, len - 1, c);
    }
  }

  lemma RoomForFrame(sys: System, fs: seq<Frame>)
    requires FramesOk(sys, fs) && NoRepeat(fs)
    ensures |fs| <= |Clauses(sys.n)| + 2
  {
    if |fs| > 1 { FramesBounded(sys, fs, 1); }
  }

  lemma FirstFrameSafe(sys: System, fs: seq<Frame>)
    requires FramesOk(sys, fs) && Disjoint(sys.init, sys.bad)
    ensures SafeFrame(sys, fs[0])
  {}

  ghost predicate Disjoint(a: Form, b: Form) {
    forall x :: !(Eval(a, x) && Eval(b, x))
  }

  lemma DisjointAnswer(a: Form, b: Form, ans: Answer)
    requires Sound(ans, [a, b], [])
    ensures ans.Unsat? <==> Disjoint(a, b)
  {
    match ans
    case Sat(m) =>
      assert a in [a, b] && b in [a, b];
    case Unsat(core) =>
      forall x ensures !(Eval(a, x) && Eval(b, x)) {
        assert Models(x, core);
        assert Eval(a, x) && Eval(b, x) ==> Models(x, [a, b]);
      }
  }

  lemma NoDifference(R: Frame, R': Frame)
    ensures R - R' == {} <==> R <= R'
  {
    if R - R' == {} {
      forall f | f in R ensures f in R' { assert f !in R - R'; }
    }
  }

  lemma FrameAdded(sys: System, fs: seq<Frame>, lost: Loss)
    requires FramesOk(sys, fs) && SafeFrame(sys, fs[|fs| - 1]) && LostOk(sys, fs, lost)
    ensures FramesOk(sys, fs + [{}]) && LostOk(sys, fs + [{}], lost)
  {
    var fs' := fs + [{}];
    forall i | 0 <= i < |fs'| - 1 ensures Steps(sys, fs'[i], fs'[i + 1]) && SafeFrame(sys, fs'[i]) {
      if i + 1 < |fs| { assert Steps(sys, fs[i], fs[i + 1]); }
    }
  }

  lemma ClauseImplied(R: Frame, f1: Form, others: seq<Form>, core: seq<Form>)
    requires f1 in R && (forall f :: f in others <==> f in R - {f1})
    requires Sound(Unsat(core), others + [Form.Not(f1)], [])
    ensures forall a :: InFrame(R - {f1}, a) <==> InFrame(R, a)
  {
    var all := others + [Form.Not(f1)];
    forall a ensures InFrame(R - {f1}, a) <==> InFrame(R, a) {
      assert Models(a, core);
      assert InFrame(R - {f1}, a) && !Eval(f1, a) ==> Models(a, all);
    }
  }

  /** Not implied by the other clauses. */
  ghost predicate Needed(R: Frame, f: Form) {
    exists a :: InFrame(R - {f}, a) && !Eval(f, a)
  }

  lemma ClauseNeeded(R: Frame, f1: Form, others: seq<Form>, m: Assignment)
    requires (forall f :: f in others <==> f in R - {f1}) && Models(m, others + [Form.Not(f1)])
    ensures Needed(R, f1)
  {
    var all := others + [Form.Not(f1)];
    assert Form.Not(f1) in all && forall f | f in others :: f in all;
    assert InFrame(R - {f1}, m) && !Eval(f1, m);
  }

  lemma StillNeeded(R: Frame, f1: Form)
    ensures forall f | Needed(R, f) :: Needed(R - {f1}, f)
  {
    forall f | Needed(R, f) ensures Needed(R - {f1}, f) {
      var a :| InFrame(R - {f}, a) && !Eval(f, a);
      InFrameMono(R - {f}, R - {f1} - {f}, a);
    }
  }

  lemma LastFrame(sys: System, fs: seq<Frame>, rs: seq<Form>, ans: Answer)
    requires |fs| > 0 && (forall f :: f in rs <==> f in fs[|fs| - 1]) && Sound(ans, [sys.bad] + rs, [])
    ensures ans.Unsat? ==> SafeFrame(sys, fs[|fs| - 1])
    ensures ans.Sat? ==> InFrame(fs[|fs| - 1], ans.model) && Eval(sys.bad, ans.model)
  {
    var all := [sys.bad] + rs;
    assert forall f :: f in all <==> f == sys.bad || f in fs[|fs| - 1];
    if ans.Unsat? {
      forall a | InFrame(fs[|fs| - 1], a) ensures !Eval(sys.bad, a) {
        assert Models(a, ans.core);
        assert Eval(sys.bad, a) ==> Models(a, all);
      }
    }
  }

  /** The transition relation is valid: the one case in which no core remains. */
  ghost predicate AlwaysSteps(sys: System) {
    forall a :: Eval(sys.trans, a)
  }

  lemma EmptyCore(sys: System, core: seq<Form>)
    requires core == [] && Refutes(core, [Form.Not(sys.trans)])
    ensures AlwaysSteps(sys)
  {
    forall a ensures Eval(sys.trans, a) {
      assert Models(a, core);
      assert !Eval(sys.trans, a) ==> Models(a, [Form.Not(sys.trans)]);
    }
  }
}
