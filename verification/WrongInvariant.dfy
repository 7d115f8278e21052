/** A run of the engine of mini_ic3.py that returns an invariant without the initial state of
    an unsafe system: the test that accepts cores is the wrong way round. */
module WrongInvariant {
  import opened Prop
  import opened Ic3

  /** 10 steps to 00, and 00 to the bad 11. */
  const TWO_STEPS := System(2, 0, And(Var(0), Form.Not(Var(1))),
    Or(And(And(Var(0), Form.Not(Var(1))), And(Form.Not(Var(2)), Form.Not(Var(3)))),
       And(And(Form.Not(Var(0)), Form.Not(Var(1))), And(Var(2), Var(3)))),
    And(Var(0), Var(1)))

  const BAD: Cube := [Lit(0, true), Lit(1, true)]
  const CORE: Cube := [Lit(0, true)]
  const MIDDLE: Cube := [Lit(0, false), Lit(1, false)]

  const INIT := TWO_STEPS.init
  const NOT_CORE := ClauseOf(CORE)
  const NOTHING := ClauseOf([])

  const ROOT := Goal(BAD, NoParent, 2)
  const CHILD := Goal(MIDDLE, Parent(ROOT), 1)
  const RAISED := Goal(MIDDLE, Parent(ROOT), 2)

  // The frames, as clauses are added to them.
  const F1: seq<Frame> := [{INIT}, {}]
  const F2 := Blocked(F1, 1, NOT_CORE)
  const F3 := F2 + [{}]
  const F4 := Blocked(F3, 1, NOTHING)
  const F5 := Blocked(F4, 2, NOTHING)
  const F6 := Blocked(F5, 2, NOT_CORE)

  // What the engine holds after each decision: a core that contains the initial state is
  // accepted for the first root, and empties the first frame.
  const S0 := Config([{INIT}], [])
  const S1 := Config(F1, [])
  const S2 := Config(F1, [Goal(BAD, NoParent, 1)])
  const S3 := Config(F2, [])
  const S4 := Config(F3, [])
  const S5 := Config(F3, [ROOT])
  const S6 := Config(F3, [CHILD, ROOT])
  const S7 := Config(F4, [ROOT, RAISED])
  const S8 := Config(F5, [ROOT])
  const S9 := Config(F6, [])

  // ---------------------------------------------------------------- the system

  lemma Forms()
    ensures TWO_STEPS.WellFormed() == true
    ensures Eval(INIT, {0}) && Eval(TWO_STEPS.bad, {0, 1})
  {}

  lemma FirstStep()
    ensures Eval(TWO_STEPS.trans, {0}) && Agree(Post(TWO_STEPS, {0}), {2, 3}, 2)
  {
    assert forall x: nat | x < 2 :: !NextHas(TWO_STEPS, {0}, x);
  }

  lemma SecondStep()
    ensures Eval(TWO_STEPS.trans, {2, 3}) && Agree(Post(TWO_STEPS, {2, 3}), {0, 1}, 2)
  {
    assert NextHas(TWO_STEPS, {2, 3}, 0) && NextHas(TWO_STEPS, {2, 3}, 1);
  }

  lemma PathToBad()
    ensures Path(TWO_STEPS, [{0}, {2, 3}, {0, 1}])
  {
    var sys, p := TWO_STEPS, [{0}, {2, 3}, {0, 1}];
    FirstStep();
    SecondStep();
    forall i | 0 <= i < 2 ensures Eval(sys.trans, p[i]) && Agree(Post(sys, p[i]), p[i + 1], 2) {
      assert i == 0 || i == 1;
    }
  }

  // ---------------------------------------------------------------- cubes and frames

  lemma CubeMeaning(a: Assignment)
    ensures InCube(BAD, a) <==> 0 in a && 1 in a
    ensures InCube(CORE, a) <==> 0 in a
    ensures InCube(MIDDLE, a) <==> 0 !in a && 1 !in a
  {
    assert InCube(BAD, a) ==> Eval(At(BAD[0], 0), a) && Eval(At(BAD[1], 0), a);
    assert InCube(CORE, a) ==> Eval(At(CORE[0], 0), a);
    assert InCube(MIDDLE, a) ==> Eval(At(MIDDLE[0], 0), a) && Eval(At(MIDDLE[1], 0), a);
  }

  lemma ClauseMeanings(a: Assignment)
    ensures Eval(NOT_CORE, a) <==> 0 !in a
    ensures !Eval(NOTHING, a)
  {
    ClauseMeaning(CORE, a);
    ClauseMeaning([], a);
    CubeMeaning(a);
  }

  lemma MeetInit()
    ensures MeetsInit(TWO_STEPS, CORE) && MeetsInit(TWO_STEPS, [])
  {
    Forms();
    CubeMeaning({0});
    assert InCube([], {0});
  }

  /** A frame without states lets any part of a cube be its core. */
  lemma NoStates(R: Frame, cube: Cube, c: Cube)
    requires NOTHING in R || (NOT_CORE in R && INIT in R)
    requires WellCube(2, c) && MeetsInit(TWO_STEPS, c) && forall l | l in c :: l in cube
    ensures InductiveBy(TWO_STEPS, R, cube, c, true) == true
  {
    forall a ensures !InFrame(R, a) { ClauseMeanings(a); }
    CoversPart(cube, c);
    assert CoreOf(TWO_STEPS, R, cube, c);
  }

  lemma CoversPart(cube: Cube, c: Cube)
    requires forall l | l in c :: l in cube
    ensures Covers(c, cube)
  {
    forall a | InCube(cube, a) ensures InCube(c, a) {
      forall i | 0 <= i < |c| ensures Eval(At(c[i], 0), a) {
        assert c[i] in cube;
        var j :| 0 <= j < |cube| && cube[j] == c[i];
      }
    }
  }

  // ---------------------------------------------------------------- the decisions

  lemma Grow0()
    ensures Moves(TWO_STEPS, S0, S1) == true
  {
    assert forall a | InFrame({INIT}, a) :: Eval(INIT, a);
    assert Grows(TWO_STEPS, S0, S1);
  }

  /** In a frame without clauses. */
  lemma BadAnywhere()
    ensures BadLike(TWO_STEPS, {}, BAD, {0, 1})
  {
    CubeMeaning({0, 1});
    forall a | InCube(BAD, a) ensures Eval(TWO_STEPS.bad, Mix(2, a, {0, 1})) { CubeMeaning(a); }
  }

  lemma Unfold1()
    ensures Moves(TWO_STEPS, S1, S2) == true
  {
    BadAnywhere();
    assert Unfolds(TWO_STEPS, S1, S2, BAD, {0, 1});
  }

  lemma FirstCore()
    ensures InductiveBy(TWO_STEPS, {INIT}, BAD, CORE, true) == true
  {
    var sys := TWO_STEPS;
    MeetInit();
    CoversPart(BAD, CORE);
    forall a | InFrame({INIT}, a) && Eval(sys.trans, a) ensures !InCube(CORE, Post(sys, a)) {
      assert Eval(INIT, a);
      assert !NextHas(sys, a, 0);
      CubeMeaning(Post(sys, a));
    }
    assert CoreOf(sys, {INIT}, BAD, CORE);
  }

  lemma Block2()
    ensures Moves(TWO_STEPS, S2, S3) == true
  {
    FirstCore();
    assert Raised(S2.goals, 0, 1) == S3.goals;
    assert Rebuts(TWO_STEPS, S2, S3, 0, CORE, true);
  }

  lemma Grow3()
    ensures Moves(TWO_STEPS, S3, S4) == true
  {
    forall a | InFrame({NOT_CORE}, a) ensures !Eval(TWO_STEPS.bad, a) { ClauseMeanings(a); }
    assert Grows(TWO_STEPS, S3, S4);
  }

  lemma Unfold4()
    ensures Moves(TWO_STEPS, S4, S5) == true
  {
    BadAnywhere();
    assert NOT_CORE in S4.frames[1];
    assert Unfolds(TWO_STEPS, S4, S5, BAD, {0, 1});
  }

  lemma MiddleSteps()
    ensures PredecessorOf(TWO_STEPS, {NOT_CORE}, BAD, MIDDLE, {2, 3}) == true
  {
    var m: Assignment := {2, 3};
    SecondStep();
    ClauseMeanings(m);
    CubeMeaning(m);
    CubeMeaning(Post(TWO_STEPS, m));
    forall a | InCube(MIDDLE, a) ensures Eval(TWO_STEPS.trans, Mix(2, a, m)) { CubeMeaning(a); }
  }

  lemma Descend5()
    ensures Moves(TWO_STEPS, S5, S6) == true
  {
    MiddleSteps();
    assert WithChild([ROOT], 0, MIDDLE) == S6.goals;
    assert Descends(TWO_STEPS, S5, S6, 0, MIDDLE, {2, 3});
  }

  lemma Block6()
    ensures Moves(TWO_STEPS, S6, S7) == true
  {
    MeetInit();
    assert INIT in F3[0] && NOT_CORE in F3[0];
    NoStates(F3[0], MIDDLE, []);
    assert Raised(S6.goals, 0, 2) == S7.goals;
    assert Rebuts(TWO_STEPS, S6, S7, 0, [], true);
  }

  lemma Block7()
    ensures Moves(TWO_STEPS, S7, S8) == true
  {
    MeetInit();
    assert NOTHING in F4[1];
    NoStates(F4[1], MIDDLE, []);
    assert Raised(S7.goals, 1, 2) == S8.goals;
    assert Rebuts(TWO_STEPS, S7, S8, 1, [], true);
  }

  lemma Block8()
    ensures Moves(TWO_STEPS, S8, S9) == true
  {
    MeetInit();
    assert NOTHING in F5[1];
    NoStates(F5[1], BAD, CORE);
    assert Raised(S8.goals, 0, 2) == S9.goals;
    assert Rebuts(TWO_STEPS, S8, S9, 0, CORE, true);
  }

  lemma RunReached()
    ensures Reached(TWO_STEPS, S9)
  {
    ReachedStart(TWO_STEPS);
    Grow0();
    ReachedNext(TWO_STEPS, S0, S1);
    Unfold1();
    ReachedNext(TWO_STEPS, S1, S2);
    Block2();
    ReachedNext(TWO_STEPS, S2, S3);
    Grow3();
    ReachedNext(TWO_STEPS, S3, S4);
    Unfold4();
    ReachedNext(TWO_STEPS, S4, S5);
    Descend5();
    ReachedNext(TWO_STEPS, S5, S6);
    Block6();
    ReachedNext(TWO_STEPS, S6, S7);
    Block7();
    ReachedNext(TWO_STEPS, S7, S8);
    Block8();
    ReachedNext(TWO_STEPS, S8, S9);
  }

  // ---------------------------------------------------------------- the result

  /** The engine gets to equal neighbouring frames without the initial state, and returns them,
      although a bad state is reachable. */
  lemma UnsafeSystemAccepted()
    ensures Reached(TWO_STEPS, S9) == true && TWO_STEPS.WellFormed() == true
    ensures S9.goals == [] && Repeats(S9.frames, 1)
    ensures forall R | SameStates(S9.frames[1], R) :: !Initiated(TWO_STEPS, R)
    ensures Path(TWO_STEPS, [{0}, {2, 3}, {0, 1}]) == true && Eval(INIT, {0}) && Eval(TWO_STEPS.bad, {0, 1})
  {
    Forms();
    PathToBad();
    RunReached();
    ClauseMeanings({0});
    var F := S9.frames[1];
    assert NOTHING in F && !InFrame(F, {0});
    forall R | SameStates(F, R) ensures !Initiated(TWO_STEPS, R) { assert !InFrame(R, {0}); }
  }
}
