/** The minimisation of CheckSmall in Program.cs: bisection of bounds with push and pop, to a
    model that no other is below. */
module CheckSmall {
  import opened Words

  type Values = seq<nat>

  /** The constraints on the expressions to minimise, as a set of value vectors. */
  datatype Problem = Problem(n: nat, feasible: Values -> bool)

  ghost predicate Model(p: Problem, v: Values) {
    |v| == p.n && (forall i | 0 <= i < |v| :: v[i] < WORD) && p.feasible(v)
  }

  ghost predicate Satisfiable(p: Problem) {
    exists v :: Model(p, v)
  }

  predicate Le(v: Values, u: Values) {
    |v| == |u| && forall i | 0 <= i < |v| :: v[i] <= u[i]
  }

  predicate AllSmall(u: Values) {
    forall i | 0 <= i < |u| :: u[i] <= HALF
  }

  /** No model is pointwise below u and smaller anywhere. */
  ghost predicate Minimal(p: Problem, u: Values) {
    forall v | Model(p, v) && Le(v, u) :: v == u
  }

  // ---------------------------------------------------------------- the solver

  /** The expression at index is at most limit. */
  datatype Bound = Bound(index: nat, limit: nat)

  datatype Answer = Sat(values: Values) | Unsat

  type Oracle = (nat, seq<Bound>) -> Answer

  predicate MeetsOne(v: Values, b: Bound) {
    b.index < |v| ==> v[b.index] <= b.limit
  }

  predicate Meets(v: Values, bounds: seq<Bound>) {
    forall b | b in bounds :: MeetsOne(v, b)
  }

  ghost predicate Sound(p: Problem, bounds: seq<Bound>, ans: Answer) {
    match ans
    case Sat(v) => Model(p, v) && Meets(v, bounds)
    case Unsat => forall v | Model(p, v) :: !Meets(v, bounds)
  }

  ghost predicate SoundOracle(p: Problem, o: Oracle) {
    forall n: nat, bounds: seq<Bound> :: Sound(p, bounds, o(n, bounds))
  }

  class Solver {
    const oracle: Oracle
    var bounds: seq<Bound>
    var scopes: seq<nat>
    var calls: nat

    constructor (oracle: Oracle)
      ensures this.oracle == oracle && bounds == [] && scopes == [] && calls == 0
    {
      this.oracle, bounds, scopes, calls := oracle, [], [], 0;
    }

    method Push()
      modifies this`scopes
      ensures scopes == old(scopes) + [|bounds|]
    {
      scopes := scopes + [|bounds|];
    }

    method Pop()
      requires |scopes| > 0 && scopes[|scopes| - 1] <= |bounds|
      modifies this`scopes, this`bounds
      ensures scopes == old(scopes)[..|old(scopes)| - 1] && bounds == old(bounds)[..old(scopes)[|old(scopes)| - 1]]
    {
      bounds := bounds[..scopes[|scopes| - 1]];
      scopes := scopes[..|scopes| - 1];
    }

    method Assert(b: Bound)
      modifies this`bounds
      ensures bounds == old(bounds) + [b]
    {
      bounds := bounds + [b];
    }

    method Check() returns (ans: Answer)
      modifies this`calls
      ensures calls == old(calls) + 1 && ans == oracle(old(calls), bounds)
    {
      ans := oracle(calls, bounds);
      calls := calls + 1;
    }
  }

  // ---------------------------------------------------------------- bounds

  /** x_i <= u_i for every i. */
  function BoundsOf(u: Values): (bs: seq<Bound>)
    ensures |bs| == |u| && forall i | 0 <= i < |u| :: bs[i] == Bound(i, u[i])
  {
    seq(|u|, i requires 0 <= i < |u| => Bound(i, u[i]))
  }

  lemma BoundsMeaning(v: Values, u: Values)
    requires |v| == |u|
    ensures Meets(v, BoundsOf(u)) <==> Le(v, u)
  {
    if Meets(v, BoundsOf(u)) {
      forall i | 0 <= i < |v| ensures v[i] <= u[i] {
        assert BoundsOf(u)[i] in BoundsOf(u);
        assert MeetsOne(v, Bound(i, u[i]));
      }
    }
  }

  /** The midpoint, in 32-bit arithmetic: half the sum if that fits, 2^31 less if not, and so
      never 2^31 or more. */
  function Mid(u: nat, l: nat): (m: nat)
    ensures m < HALF
    ensures u + l < WORD ==> 2 * m <= u + l <= 2 * m + 1
    ensures WORD <= u + l < 2 * WORD ==> 2 * (m + HALF) <= u + l <= 2 * (m + HALF) + 1
  {
    ((u + l) % WORD) / 2
  }

  /** Small bounds do not wrap around. */
  lemma MidBetween(u: nat, l: nat)
    requires l < u < WORD
    ensures Mid(u, l) < u && (u <= HALF ==> l <= Mid(u, l))
  {
    if u + l < WORD {
      assert (u + l) % WORD == u + l;
    } else {
      assert (u + l) % WORD == u + l - WORD;
    }
  }

  /** What is asked in the scope: the upper bounds, and a pending midpoint. */
  datatype Pending = NoBound | Halved(b: Bound)

  ghost predicate Allows(v: Values, u: Values, pending: Pending) {
    Le(v, u) && (pending.Halved? ==> MeetsOne(v, pending.b))
  }

  ghost predicate Scope(n: nat, bounds: seq<Bound>, u: Values, pending: Pending) {
    && (pending.Halved? ==> pending.b in bounds)
    && forall v: Values | |v| == n && Allows(v, u, pending) :: Meets(v, bounds)
  }

  lemma ScopeExact(n: nat, bounds: seq<Bound>, u: Values, pending: Pending, v: Values)
    requires |u| == n == |v| && Scope(n, bounds, u, pending)
    ensures Meets(v, bounds + BoundsOf(u)) <==> Allows(v, u, pending)
  {
    var all := bounds + BoundsOf(u);
    BoundsMeaning(v, u);
    assert forall b :: b in all <==> b in bounds || b in BoundsOf(u);
  }

  /** After a model its values are the upper bounds, and a midpoint may be pending below. */
  lemma ScopeNarrows(n: nat, bounds: seq<Bound>, u: Values, u': Values, b: Bound)
    requires |u| == n == |u'| && Meets(u', bounds) && b.index < n && b.limit <= u'[b.index]
    ensures Scope(n, bounds + [b], u', Halved(b))
  {
    var all := bounds + [b];
    forall v: Values | |v| == n && Allows(v, u', Halved(b)) ensures Meets(v, all) {
      forall c | c in all ensures MeetsOne(v, c) {
        if c in bounds { assert MeetsOne(u', c); }
      }
    }
  }

  /** Below the upper bounds no model is below the lower ones. */
  ghost predicate LowerOk(p: Problem, u: Values, l: Values) {
    |u| == |l| == p.n && forall v | Model(p, v) && Le(v, u) :: Le(l, v)
  }

  lemma LowerNarrows(p: Problem, u: Values, l: Values, u': Values)
    requires LowerOk(p, u, l) && Le(u', u)
    ensures LowerOk(p, u', l)
  {
    forall v | Model(p, v) && Le(v, u') ensures Le(l, v) { assert Le(v, u); }
  }

  /** No model below the midpoint: the lower bound rises above it. */
  lemma LowerRises(p: Problem, u: Values, l: Values, b: Bound)
    requires LowerOk(p, u, l) && b.index < p.n
    requires forall v | Model(p, v) :: !Allows(v, u, Halved(b))
    ensures LowerOk(p, u, l[b.index := b.limit + 1])
  {
    forall v | Model(p, v) && Le(v, u) ensures Le(l[b.index := b.limit + 1], v) {
      assert Le(l, v);
      assert !Allows(v, u, Halved(b));
    }
  }

  /** With no gap left, the attained upper bounds are minimal. */
  lemma GapClosed(p: Problem, u: Values, l: Values)
    requires LowerOk(p, u, l) && forall i | 0 <= i < p.n :: l[i] >= u[i]
    ensures Minimal(p, u)
  {
    forall v | Model(p, v) && Le(v, u) ensures v == u {
      assert Le(l, v);
      forall i | 0 <= i < p.n ensures v[i] == u[i] { assert l[i] <= v[i] <= u[i]; }
    }
  }

  /** The binary digits of a gap: as many as it can be halved. */
  function Digits(g: int): nat {
    if g <= 0 then 0 else 1 + Digits(g / 2)
  }

  lemma {:induction false} DigitsMono(g: int, h: int)
    requires g <= h
    ensures Digits(g) <= Digits(h)
  {
    if g > 0 { DigitsMono(g / 2, h / 2); }
  }

  function TwoTo(k: nat): nat {
    if k == 0 then 1 else 2 * TwoTo(k - 1)
  }

  lemma {:induction false} DigitsBelow(g: int, k: nat)
    requires g < TwoTo(k)
    ensures Digits(g) <= k
    decreases k
  {
    if g > 0 { DigitsBelow(g / 2, k - 1); }
  }

  lemma SmallDigits(g: int)
    requires g <= HALF
    ensures Digits(g) <= 32
  {
    TwoToByte(0);
    TwoToByte(8);
    TwoToByte(16);
    TwoToByte(24);
    DigitsBelow(g, 32);
  }

  lemma TwoToByte(k: nat)
    ensures TwoTo(k + 8) == 256 * TwoTo(k)
  {
    TwoToNibble(k);
    TwoToNibble(k + 4);
  }

  lemma TwoToNibble(k: nat)
    ensures TwoTo(k + 4) == 16 * TwoTo(k)
  {
    assert TwoTo(k + 1) == 2 * TwoTo(k) && TwoTo(k + 2) == 2 * TwoTo(k + 1) && TwoTo(k + 3) == 2 * TwoTo(k + 2);
  }

  lemma DigitsHalved(g: int, h: int)
    requires 0 < g && h <= g / 2
    ensures Digits(h) < Digits(g)
  {
    DigitsMono(h, g / 2);
  }

  function Gap(u: int, l: int): int {
    u - l
  }

  /** The digits of all gaps together. */
  function Effort(u: Values, l: Values): nat
    requires |u| == |l|
  {
    if |u| == 0 then 0 else Effort(u[..|u| - 1], l[..|l| - 1]) + Digits(Gap(u[|u| - 1], l[|l| - 1]))
  }

  /** An open gap has become at most half of what it was. */
  predicate HalvedAt(u: Values, l: Values, u': Values, l': Values, i: nat)
    requires |u| == |l| == |u'| == |l'|
  {
    i < |u| && l[i] < u[i] && Gap(u'[i], l'[i]) <= Gap(u[i], l[i]) / 2
  }

  lemma {:induction false} EffortKept(u: Values, l: Values, u': Values, l': Values)
    requires |l| == |u| && Le(u', u) && Le(l, l')
    ensures Effort(u', l') <= Effort(u, l)
  {
    if |u| > 0 {
      var k := |u| - 1;
      EffortKept(u[..k], l[..k], u'[..k], l'[..k]);
      DigitsMono(Gap(u'[k], l'[k]), Gap(u[k], l[k]));
    }
  }

  lemma {:induction false} EffortLess(u: Values, l: Values, u': Values, l': Values, i: nat)
    requires |l| == |u| && Le(u', u) && Le(l, l') && HalvedAt(u, l, u', l', i)
    ensures Effort(u', l') < Effort(u, l)
  {
    var k := |u| - 1;
    if i < k {
      EffortLess(u[..k], l[..k], u'[..k], l'[..k], i);
      DigitsMono(Gap(u'[k], l'[k]), Gap(u[k], l[k]));
    } else {
      EffortKept(u[..k], l[..k], u'[..k], l'[..k]);
      DigitsHalved(Gap(u[k], l[k]), Gap(u'[k], l'[k]));
    }
  }

  lemma {:induction false} EffortBound(u: Values, l: Values)
    requires |u| == |l| && AllSmall(u)
    ensures Effort(u, l) <= |u| * 32
  {
    if |u| > 0 {
      EffortBound(u[..|u| - 1], l[..|l| - 1]);
      SmallDigits(Gap(u[|u| - 1], l[|l| - 1]));
    }
  }

  function MaxVector(n: nat): (u: Values)
    ensures |u| == n && forall i | 0 <= i < n :: u[i] == WORD - 1
  {
    seq(n, i => WORD - 1)
  }

  // ---------------------------------------------------------------- the algorithm

  /** Between rounds: the upper bounds are attained, or still the initial ones. */
  ghost predicate Between(p: Problem, u: Values, l: Values, lastIndex: int) {
    && LowerOk(p, u, l) && AllSmall(l) && (forall i | 0 <= i < |u| :: u[i] < WORD)
    && (Model(p, u) || (u == MaxVector(p.n) && lastIndex == -1))
  }

  /** Nothing left to do: the upper bounds are a minimal model with small values. */
  ghost predicate Finished(p: Problem, u: Values) {
    Model(p, u) && Minimal(p, u) && AllSmall(u)
  }

  lemma StartsBetween(p: Problem)
    ensures Between(p, MaxVector(p.n), seq(p.n, i => 0), -1)
  {}

  method AssertBounds(solver: Solver, upper: array<nat>)
    modifies solver`bounds
    ensures solver.bounds == old(solver.bounds) + BoundsOf(upper[..])
  {
    for i := 0 to upper.Length
      invariant solver.bounds == old(solver.bounds) + BoundsOf(upper[..])[..i]
    {
      solver.Assert(Bound(i, upper[i]));
    }
    assert BoundsOf(upper[..])[..upper.Length] == BoundsOf(upper[..]);
  }

  method Narrow(upper: array<nat>, values: Values)
    requires Le(values, upper[..])
    modifies upper
    ensures upper[..] == values
  {
    for i := 0 to upper.Length
      invariant forall j | 0 <= j < upper.Length :: upper[j] == if j < i then values[j] else old(upper[j])
    {
      if values[i] < upper[i] {
        upper[i] := values[i];
      }
    }
  }

  /** The first expression with a gap, from k on; -1 if there is none. */
  function GapFrom(l: Values, u: Values, k: nat): (i: int)
    requires |l| == |u| && k <= |u|
    ensures i == -1 || (k <= i < |u| && l[i] < u[i])
    ensures forall j | k <= j < (if i == -1 then |u| else i) :: l[j] >= u[j]
    decreases |u| - k
  {
    if k == |u| then -1 else if l[k] < u[k] then k else GapFrom(l, u, k + 1)
  }

  /** The first expression with a gap. */
  method FindGap(lower: array<nat>, upper: array<nat>) returns (found: bool, index: nat)
    requires lower.Length == upper.Length
    ensures found <==> GapFrom(lower[..], upper[..], 0) != -1
    ensures index == if found then GapFrom(lower[..], upper[..], 0) else 0
  {
    for i := 0 to upper.Length
      invariant GapFrom(lower[..], upper[..], 0) == GapFrom(lower[..], upper[..], i)
    {
      if lower[i] < upper[i] {
        return true, i;
      }
    }
    return false, 0;
  }

  function Total(u: Values): nat {
    if |u| == 0 then 0 else Total(u[..|u| - 1]) + u[|u| - 1]
  }

  lemma {:induction false} TotalLess(v: Values, u: Values)
    requires Le(v, u)
    ensures Total(v) <= Total(u) && ((exists i :: 0 <= i < |u| && v[i] < u[i]) ==> Total(v) < Total(u))
  {
    if |u| > 0 {
      TotalLess(v[..|u| - 1], u[..|u| - 1]);
      if i :| 0 <= i < |u| && v[i] < u[i] {
        if i < |u| - 1 { assert v[..|u| - 1][i] < u[..|u| - 1][i]; }
      }
    }
  }

  /** Within a round, after a model: the upper bounds are its values, and the midpoint of the
      first gap has been asserted. */
  ghost predicate Halving(p: Problem, u: Values, l: Values, i: int, m: nat) {
    Model(p, u) && 0 <= i < p.n == |l| && l[i] < u[i] && m == Mid(u[i], l[i])
  }

  /** Within a round: what has been asserted, and how far the search is. */
  ghost predicate Inside(p: Problem, bounds: seq<Bound>, u: Values, l: Values, pending: Pending, i: int, m: nat,
                         someWork: bool) {
    && LowerOk(p, u, l) && AllSmall(l) && (forall k | 0 <= k < |u| :: u[k] < WORD)
    && if !someWork then Model(p, u) && forall k | 0 <= k < p.n :: l[k] >= u[k]
       else
         Scope(p.n, bounds, u, pending)
         && if pending.NoBound? then Between(p, u, l, i) else Halving(p, u, l, i, m) && pending.b == Bound(i, m)
  }

  /** A model in a round. */
  lemma ModelInside(p: Problem, bounds: seq<Bound>, u: Values, l: Values, pending: Pending, i: int, m: nat,
                    v: Values, found: bool, j: nat)
    requires Inside(p, bounds, u, l, pending, i, m, true) && Model(p, v) && Meets(v, bounds + BoundsOf(u))
    requires found ==> j < p.n && l[j] < v[j]
    requires !found ==> forall k | 0 <= k < p.n :: l[k] >= v[k]
    ensures Le(v, u)
    ensures !found ==> forall bs :: Inside(p, bs, v, l, pending, 0, m, false)
    ensures found ==> var b := Bound(j, Mid(v[j], l[j]));
                      Inside(p, bounds + BoundsOf(u) + [b], v, l, Halved(b), j, b.limit, true)
    ensures pending.Halved? ==> Total(v) < Total(u)
  {
    var all := bounds + BoundsOf(u);
    ScopeExact(p.n, bounds, u, pending, v);
    LowerNarrows(p, u, l, v);
    if found {
      MidBetween(v[j], l[j]);
      ScopeNarrows(p.n, all, u, v, Bound(j, Mid(v[j], l[j])));
    }
    if pending.Halved? {
      MidBetween(u[i], l[i]);
      TotalLess(v, u);
      assert v[i] < u[i];
    }
  }

  /** No model in a round: the lower bound rises, or nothing was satisfiable from the start. */
  lemma NoModelInside(p: Problem, bounds: seq<Bound>, u: Values, l: Values, pending: Pending, i: int, m: nat)
    requires Inside(p, bounds, u, l, pending, i, m, true)
    requires forall v | Model(p, v) :: !Meets(v, bounds + BoundsOf(u))
    ensures pending.NoBound? ==> i == -1 && !Satisfiable(p)
    ensures pending.Halved? ==> Between(p, u, l[i := m + 1], i) && Le(l[i := m + 1], u) && Le(l, u)
    ensures pending.Halved? && AllSmall(u) ==> l[i] < m + 1
  {
    forall v | Model(p, v) ensures !Allows(v, u, pending) { ScopeExact(p.n, bounds, u, pending, v); }
    if pending.Halved? {
      LowerRises(p, u, l, pending.b);
      MidBetween(u[i], l[i]);
    } else {
      forall v | Model(p, v) && u == MaxVector(p.n) ensures Le(v, u) {}
      if Model(p, u) { assert Allows(u, u, pending); }
    }
  }

  /** The upper bounds have come down to a model, below the first one found. */
  ghost predicate Tracked(p: Problem, first: Answer, u0: Values, u: Values) {
    Model(p, u) && Le(u, u0) && first.Sat? && Le(u, first.values)
  }

  /** What a round achieves, from bounds u0 and l0. */
  ghost predicate RoundResult(p: Problem, first: Answer, u0: Values, l0: Values, i0: int, u: Values, l: Values,
                              i: int, someWork: bool) {
    && Between(p, u, l, i) && |u0| == |l0| == p.n && (!someWork ==> Finished(p, u))
    && (Satisfiable(p) ==> Tracked(p, first, u0, u) && Le(l0, u))
    && (Satisfiable(p) && AllSmall(u) ==>
          Effort(u, l) <= Effort(u0, l0) && (someWork ==> Effort(u, l) < Effort(u0, l0)))
    && (!Satisfiable(p) ==> someWork && u == u0 && l == l0 && i == i0)
  }

  /** The lower bound above a midpoint without models; -1 if there was none yet. */
  function Raised(l: Values, i: int, m: nat): Values
    requires -1 <= i < |l|
  {
    if i == -1 then l else l[i := m + 1]
  }

  /** From small bounds, a check with a pending midpoint leaves at most half of its gap. */
  lemma HalvesGap(p: Problem, bounds: seq<Bound>, u: Values, l: Values, pending: Pending, i: int, m: nat, ans: Answer)
    requires Inside(p, bounds, u, l, pending, i, m, true) && pending.Halved? && AllSmall(u)
    requires ans.Sat? ==> Model(p, ans.values) && Meets(ans.values, bounds + BoundsOf(u))
    ensures 0 <= i < |l| == |u| && l[i] < u[i]
    ensures ans.Sat? ==> |ans.values| == |l| && Gap(ans.values[i], l[i]) <= Gap(u[i], l[i]) / 2
    ensures ans.Unsat? ==> Gap(u[i], m + 1) <= Gap(u[i], l[i]) / 2
  {
    if ans.Sat? { ScopeExact(p.n, bounds, u, pending, ans.values); }
  }

  lemma ResultUnsat(p: Problem, first: Answer, u0: Values, bounds: seq<Bound>, u: Values, l: Values, pending: Pending,
                    i: int, m: nat, i0: int)
    requires Inside(p, bounds, u, l, pending, i, m, true)
    requires forall v | Model(p, v) :: !Meets(v, bounds + BoundsOf(u))
    requires if pending.NoBound? then u == u0 && i == i0 else Tracked(p, first, u0, u)
    ensures -1 <= i < |l|
    ensures RoundResult(p, first, u0, l, i0, u, Raised(l, i, m), i, true)
  {
    NoModelInside(p, bounds, u, l, pending, i, m);
    if pending.Halved? {
      var l' := l[i := m + 1];
      if AllSmall(u) {
        HalvesGap(p, bounds, u, l, pending, i, m, Unsat);
        assert Le(u, u);
        EffortLess(u, l, u, l', i);
        EffortKept(u0, l, u, l);
      }
    }
  }

  lemma ResultDone(p: Problem, first: Answer, u0: Values, bounds: seq<Bound>, u: Values, l: Values, pending: Pending,
                   i0: int, m: nat)
    requires Inside(p, bounds, u, l, pending, 0, m, false) && Tracked(p, first, u0, u)
    ensures RoundResult(p, first, u0, l, i0, u, l, 0, false)
  {
    GapClosed(p, u, l);
    assert Le(u, u);
    EffortKept(u0, l, u, l);
  }

  lemma BelowBounds(p: Problem, bounds: seq<Bound>, u: Values, l: Values, pending: Pending, i: int, m: nat, v: Values)
    requires Inside(p, bounds, u, l, pending, i, m, true) && Model(p, v) && Meets(v, bounds + BoundsOf(u))
    ensures Le(v, u)
  {
    ScopeExact(p.n, bounds, u, pending, v);
  }

  // ---------------------------------------------------------------- rounds as a function

  /** Where the search stands: the bounds, the last index and midpoint, the calls made, and
      whether there is work left. */
  datatype Position = Position(upper: Values, lower: Values, index: int, mid: nat, calls: nat, someWork: bool)

  /** The rest of a round. */
  ghost function Search(p: Problem, o: Oracle, bounds: seq<Bound>, u: Values, l: Values, pending: Pending, i: int,
                        m: nat, calls: nat): Position
    requires SoundOracle(p, o) && Inside(p, bounds, u, l, pending, i, m, true)
    decreases pending.NoBound?, Total(u)
  {
    var ans := o(calls, bounds + BoundsOf(u));
    assert Sound(p, bounds + BoundsOf(u), ans);
    match ans
    case Unsat =>
      NoModelInside(p, bounds, u, l, pending, i, m);
      Position(u, Raised(l, i, m), i, m, calls + 1, true)
    case Sat(v) =>
      BelowBounds(p, bounds, u, l, pending, i, m, v);
      var j := GapFrom(l, v, 0);
      if j == -1 then Position(v, l, 0, m, calls + 1, false)
      else
        var b := Bound(j, Mid(v[j], l[j]));
        ModelInside(p, bounds, u, l, pending, i, m, v, true, j);
        Search(p, o, bounds + BoundsOf(u) + [b], v, l, Halved(b), j, b.limit, calls + 1)
  }

  /** What a round achieves, for any sound solver. */
  lemma {:induction false} SearchResult(p: Problem, o: Oracle, bounds: seq<Bound>, u: Values, l: Values,
                                        pending: Pending, i: int, m: nat, calls: nat, first: Answer, u0: Values,
                                        i0: int)
    requires SoundOracle(p, o) && Inside(p, bounds, u, l, pending, i, m, true)
    requires if pending.NoBound? then u == u0 && i == i0 && first == o(calls, bounds + BoundsOf(u))
             else Tracked(p, first, u0, u)
    ensures var r := Search(p, o, bounds, u, l, pending, i, m, calls);
            RoundResult(p, first, u0, l, i0, r.upper, r.lower, r.index, r.someWork) == true
    decreases pending.NoBound?, Total(u)
  {
    var ans := o(calls, bounds + BoundsOf(u));
    assert Sound(p, bounds + BoundsOf(u), ans);
    match ans
    case Unsat =>
      ResultUnsat(p, first, u0, bounds, u, l, pending, i, m, i0);
    case Sat(v) =>
      BelowBounds(p, bounds, u, l, pending, i, m, v);
      StillTracked(p, first, u0, u, ans);
      var j := GapFrom(l, v, 0);
      ModelInside(p, bounds, u, l, pending, i, m, v, j != -1, if j == -1 then 0 else j);
      if j == -1 {
        ResultDone(p, first, u0, [], v, l, pending, i0, m);
      } else {
        var b := Bound(j, Mid(v[j], l[j]));
        SearchResult(p, o, bounds + BoundsOf(u) + [b], v, l, Halved(b), j, b.limit, calls + 1, first, u0, i0);
      }
  }

  lemma StillTracked(p: Problem, first: Answer, u0: Values, u: Values, ans: Answer)
    requires ans.Sat? ==> Model(p, ans.values) && Le(ans.values, u)
    requires Tracked(p, first, u0, u) || (ans.Sat? ==> ans == first && u == u0)
    ensures ans.Sat? ==> Tracked(p, first, u0, ans.values) == true
  {}

  lemma RoundStarts(p: Problem, u: Values, l: Values, i: int, m: nat)
    requires Between(p, u, l, i)
    ensures Inside(p, [], u, l, NoBound, i, m, true)
  {}

  /** A whole round. */
  ghost function RoundOf(p: Problem, o: Oracle, s: Position): Position
    requires SoundOracle(p, o) && Between(p, s.upper, s.lower, s.index) == true
  {
    RoundStarts(p, s.upper, s.lower, s.index, s.mid);
    Search(p, o, [], s.upper, s.lower, NoBound, s.index, s.mid, s.calls)
  }

  ghost predicate Achieves(p: Problem, first: Answer, s: Position, r: Position) {
    RoundResult(p, first, s.upper, s.lower, s.index, r.upper, r.lower, r.index, r.someWork)
  }

  lemma RoundAchieves(p: Problem, o: Oracle, s: Position)
    requires SoundOracle(p, o) && Between(p, s.upper, s.lower, s.index) == true
    ensures Achieves(p, o(s.calls, BoundsOf(s.upper)), s, RoundOf(p, o, s)) == true
    ensures Standing(p, RoundOf(p, o, s)) == true
  {
    var first := o(s.calls, BoundsOf(s.upper));
    RoundStarts(p, s.upper, s.lower, s.index, s.mid);
    assert [] + BoundsOf(s.upper) == BoundsOf(s.upper);
    SearchResult(p, o, [], s.upper, s.lower, NoBound, s.index, s.mid, s.calls, first, s.upper, s.index);
  }

  function StartOf(n: nat, calls: nat): Position {
    Position(MaxVector(n), seq(n, _ => 0), -1, 0, calls, true)
  }

  /** What holds between rounds. */
  ghost predicate Standing(p: Problem, s: Position) {
    Between(p, s.upper, s.lower, s.index) && (!s.someWork ==> Finished(p, s.upper))
  }

  /** The next round, if there is work left. */
  ghost function NextOf(p: Problem, o: Oracle, s: Position): (r: Position)
    requires SoundOracle(p, o) && Standing(p, s) == true
    ensures Standing(p, r) == true
  {
    if s.someWork then
      RoundAchieves(p, o, s);
      RoundOf(p, o, s)
    else s
  }

  /** The search after k rounds, or where it stopped before. */
  ghost function After(p: Problem, o: Oracle, calls: nat, k: nat): (s: Position)
    requires SoundOracle(p, o)
    ensures Standing(p, s) == true
  {
    if k == 0 then
      StartsBetween(p);
      StartOf(p.n, calls)
    else
      NextOf(p, o, After(p, o, calls, k - 1))
  }

  /** The upper bounds are a model with values of at most 2^31. */
  ghost predicate SmallModel(p: Problem, s: Position) {
    Model(p, s.upper) && AllSmall(s.upper)
  }

  // ---------------------------------------------------------------- when the search stops

  /** A round keeps small bounds small, and halves a gap if there is work left. */
  lemma RoundShrinks(p: Problem, first: Answer, s: Position, r: Position)
    requires Achieves(p, first, s, r) == true
    requires Satisfiable(p) && (AllSmall(s.upper) || (first.Sat? && AllSmall(first.values)))
    ensures SmallModel(p, r)
    ensures Effort(r.upper, r.lower) <= Effort(s.upper, s.lower)
    ensures r.someWork ==> Effort(r.upper, r.lower) < Effort(s.upper, s.lower)
  {
    forall k | 0 <= k < |r.upper| ensures r.upper[k] <= HALF {
      assert r.upper[k] <= s.upper[k] && r.upper[k] <= first.values[k];
    }
  }

  /** Small bounds, and gaps of at most g digits in all if there is work left. */
  ghost predicate Closing(p: Problem, s: Position, g: int) {
    SmallModel(p, s) && |s.lower| == |s.upper| && (s.someWork ==> Effort(s.upper, s.lower) <= g)
  }

  lemma SmallCloses(p: Problem, s: Position)
    requires Standing(p, s) == true && SmallModel(p, s) == true
    ensures Closing(p, s, p.n * 32) == true
  {
    assert Le(s.upper, s.upper) && Le(s.lower, s.upper);
    EffortBound(s.upper, s.lower);
  }

  lemma NextCloses(p: Problem, o: Oracle, s: Position, g: int)
    requires SoundOracle(p, o) && Standing(p, s) == true && Closing(p, s, g) == true
    ensures Closing(p, NextOf(p, o, s), g - 1) == true
  {
    if s.someWork {
      RoundAchieves(p, o, s);
      RoundShrinks(p, o(s.calls, BoundsOf(s.upper)), s, RoundOf(p, o, s));
    }
  }

  lemma AfterStands(p: Problem, o: Oracle, calls: nat, k: nat)
    requires SoundOracle(p, o)
    ensures Standing(p, After(p, o, calls, k)) == true
    ensures After(p, o, calls, k + 1) == NextOf(p, o, After(p, o, calls, k))
  {}

  lemma AfterCloses(p: Problem, o: Oracle, calls: nat, k: nat, g: int)
    requires SoundOracle(p, o) && Closing(p, After(p, o, calls, k), g) == true
    ensures Closing(p, After(p, o, calls, k + 1), g - 1) == true
  {
    AfterStands(p, o, calls, k);
    NextCloses(p, o, After(p, o, calls, k), g);
  }

  /** From small bounds on, every further round with work left halves a gap. */
  lemma {:induction false} GapCloses(p: Problem, o: Oracle, calls: nat, k: nat, g: int, j: nat, h: int)
    requires SoundOracle(p, o) && Closing(p, After(p, o, calls, k), g) == true && j >= k && h == g + k - j
    ensures Closing(p, After(p, o, calls, j), h) == true
    decreases j - k
  {
    if j == k {
      assert h == g;
    } else {
      AfterCloses(p, o, calls, k, g);
      GapCloses(p, o, calls, k + 1, g - 1, j, h);
    }
  }

  /** After small bounds the search stops within n * 32 rounds, and one. */
  lemma SmallStops(p: Problem, o: Oracle, calls: nat, k: nat, j: nat)
    requires SoundOracle(p, o) && SmallModel(p, After(p, o, calls, k)) == true && j > k + p.n * 32
    ensures !After(p, o, calls, j).someWork
  {
    var g := p.n * 32;
    AfterStands(p, o, calls, k);
    SmallCloses(p, After(p, o, calls, k));
    GapCloses(p, o, calls, k, g, j, g + k - j);
    GapOver(p, After(p, o, calls, j), g + k - j);
  }

  lemma GapOver(p: Problem, s: Position, g: int)
    requires Closing(p, s, g) == true && g < 0
    ensures !s.someWork
  {}

  ghost predicate Stops(p: Problem, o: Oracle, calls: nat)
    requires SoundOracle(p, o)
  {
    exists k: nat :: !After(p, o, calls, k).someWork
  }

  ghost predicate GetsSmall(p: Problem, o: Oracle, calls: nat)
    requires SoundOracle(p, o)
  {
    exists k: nat :: SmallModel(p, After(p, o, calls, k))
  }

  /** The search stops if and only if some round ends with upper bounds that are a model
      with values of at most 2^31. */
  lemma StopsExactly(p: Problem, o: Oracle, calls: nat)
    requires SoundOracle(p, o)
    ensures Stops(p, o, calls) == GetsSmall(p, o, calls)
  {
    if k: nat :| !After(p, o, calls, k).someWork {
      assert SmallModel(p, After(p, o, calls, k));
    }
    if k: nat :| SmallModel(p, After(p, o, calls, k)) {
      SmallStops(p, o, calls, k, k + p.n * 32 + 1);
    }
  }

  /** It stops if the solver's first model has such values, and only if there is one. */
  lemma FirstModelSmall(p: Problem, o: Oracle, calls: nat)
    requires SoundOracle(p, o)
    ensures var first := o(calls, BoundsOf(MaxVector(p.n)));
            first.Sat? && AllSmall(first.values) ==> Stops(p, o, calls)
    ensures Stops(p, o, calls) ==> exists v :: Model(p, v) && AllSmall(v)
  {
    StopsExactly(p, o, calls);
    var s := After(p, o, calls, 0);
    var first := o(calls, BoundsOf(s.upper));
    assert s == StartOf(p.n, calls) && Sound(p, BoundsOf(s.upper), first);
    if first.Sat? && AllSmall(first.values) {
      assert Satisfiable(p);
      RoundAchieves(p, o, s);
      RoundShrinks(p, first, s, RoundOf(p, o, s));
      assert SmallModel(p, After(p, o, calls, 1));
    }
  }

  // ---------------------------------------------------------------- a search without end

  /** Two models, and a solver that prefers the large one. */
  const TWO_VALUES := Problem(1, v => v == [HALF] || v == [WORD - 1])

  const PREFERS_LARGE: Oracle :=
    (n, bs) => if Meets([WORD - 1], bs) then Sat([WORD - 1]) else if Meets([HALF], bs) then Sat([HALF]) else Unsat

  lemma PrefersLargeSound()
    ensures SoundOracle(TWO_VALUES, PREFERS_LARGE)
  {
    forall v | Model(TWO_VALUES, v) ensures v == [HALF] || v == [WORD - 1] {}
  }

  /** The midpoint wraps around, so the lower bound never comes near the upper one: there is a
      model with a value of 2^31, and the search does not stop. */
  lemma NeverStops(calls: nat)
    ensures SoundOracle(TWO_VALUES, PREFERS_LARGE) && !Stops(TWO_VALUES, PREFERS_LARGE, calls)
    ensures Model(TWO_VALUES, [HALF]) && AllSmall([HALF])
  {
    PrefersLargeSound();
    forall k: nat ensures After(TWO_VALUES, PREFERS_LARGE, calls, k).someWork { StaysLarge(calls, 0, k); }
  }

  ghost predicate Large(s: Position) {
    s.upper == [WORD - 1] && s.someWork
  }

  lemma {:induction false} StaysLarge(calls: nat, k: nat, j: nat)
    requires SoundOracle(TWO_VALUES, PREFERS_LARGE) == true && k <= j
    requires Large(After(TWO_VALUES, PREFERS_LARGE, calls, k)) == true
    ensures Large(After(TWO_VALUES, PREFERS_LARGE, calls, j)) == true
    decreases j - k
  {
    if k < j {
      AfterStands(TWO_VALUES, PREFERS_LARGE, calls, k);
      LargeRound(After(TWO_VALUES, PREFERS_LARGE, calls, k));
      StaysLarge(calls, k + 1, j);
    }
  }

  lemma LargeRound(s: Position)
    requires SoundOracle(TWO_VALUES, PREFERS_LARGE) == true && Standing(TWO_VALUES, s) == true
    requires Large(s) == true
    ensures Large(NextOf(TWO_VALUES, PREFERS_LARGE, s)) == true
  {
    var p, o, u, l := TWO_VALUES, PREFERS_LARGE, s.upper, s.lower;
    RoundStarts(p, u, l, s.index, s.mid);
    var bs := [] + BoundsOf(u);
    assert bs == [Bound(0, WORD - 1)];
    assert Meets(u, bs);
    var b := Bound(0, Mid(u[0], l[0]));
    assert GapFrom(l, u, 0) == 0;
    ModelInside(p, [], u, l, NoBound, s.index, s.mid, u, true, 0);
    LargeSearch(bs + [b], l, b.limit, s.calls + 1);
  }

  lemma LargeSearch(bounds: seq<Bound>, l: Values, m: nat, calls: nat)
    requires SoundOracle(TWO_VALUES, PREFERS_LARGE) && m < HALF && Bound(0, m) in bounds
    requires Inside(TWO_VALUES, bounds, [WORD - 1], l, Halved(Bound(0, m)), 0, m, true)
    ensures Large(Search(TWO_VALUES, PREFERS_LARGE, bounds, [WORD - 1], l, Halved(Bound(0, m)), 0, m, calls))
  {
    var bs := bounds + BoundsOf([WORD - 1]);
    assert Bound(0, m) in bs && !MeetsOne([WORD - 1], Bound(0, m)) && !MeetsOne([HALF], Bound(0, m));
  }

  // ---------------------------------------------------------------- the algorithm in place

  /** One check within a round: with a model, narrows the bounds and asserts the next midpoint. */
  method Bisect(ghost p: Problem, solver: Solver, upper: array<nat>, lower: array<nat>, lastIndex: int, lastUpper: nat,
                ghost pending: Pending)
    returns (ans: Answer, found: bool, index: int, mid: nat)
    requires SoundOracle(p, solver.oracle) && lower != upper && upper.Length == p.n == lower.Length
    requires Inside(p, solver.bounds, upper[..], lower[..], pending, lastIndex, lastUpper, true) == true
    modifies solver`bounds, solver`calls, upper
    ensures ans == solver.oracle(old(solver.calls), old(solver.bounds) + BoundsOf(old(upper[..])))
    ensures solver.calls == old(solver.calls) + 1
    ensures ans.Unsat? ==> upper[..] == old(upper[..]) && index == lastIndex && mid == lastUpper
    ensures ans.Sat? ==> upper[..] == ans.values && |ans.values| == p.n
    ensures ans.Sat? ==> (found <==> GapFrom(lower[..], ans.values, 0) != -1)
    ensures ans.Sat? && !found ==> index == 0 && mid == lastUpper
    ensures ans.Sat? && found ==>
              index == GapFrom(lower[..], ans.values, 0) && mid == Mid(ans.values[index], lower[index])
    ensures pending.Halved? && AllSmall(old(upper[..])) ==>
              var gap := Gap(old(upper[lastIndex]), lower[lastIndex]);
              if ans.Sat? then Gap(upper[lastIndex], lower[lastIndex]) <= gap / 2
              else Gap(upper[lastIndex], mid + 1) <= gap / 2
    ensures ans.Sat? && found ==> solver.bounds == old(solver.bounds) + BoundsOf(old(upper[..])) + [Bound(index, mid)]
  {
    ghost var bounds, u, l := solver.bounds, upper[..], lower[..];
    AssertBounds(solver, upper);
    ans := solver.Check();
    assert Sound(p, bounds + BoundsOf(u), ans);
    if pending.Halved? && AllSmall(u) {
      HalvesGap(p, bounds, u, l, pending, lastIndex, lastUpper, ans);
    }
    found, index, mid := false, lastIndex, lastUpper;
    if ans.Sat? {
      BelowBounds(p, bounds, u, l, pending, lastIndex, lastUpper, ans.values);
      Narrow(upper, ans.values);
      found, index := FindGap(lower, upper);
      if found {
        mid := Mid(upper[index], lower[index]);
        solver.Assert(Bound(index, mid));
      }
    }
  }

  method RaiseLower(lower: array<nat>, lastIndex: int, lastUpper: nat)
    requires -1 <= lastIndex < lower.Length
    modifies lower
    ensures lower[..] == Raised(old(lower[..]), lastIndex, lastUpper)
  {
    if lastIndex != -1 {
      lower[lastIndex] := lastUpper + 1;
    }
  }

  /** One round between push and pop: bisects until there is no model, or no gap. */
  method Round(ghost p: Problem, solver: Solver, upper: array<nat>, lower: array<nat>, lastIndex: int, lastUpper: nat)
    returns (someWork: bool, index: int, mid: nat)
    requires SoundOracle(p, solver.oracle) && solver.bounds == [] && solver.scopes == []
    requires lower != upper && upper.Length == p.n == lower.Length
    requires Between(p, upper[..], lower[..], lastIndex)
    modifies solver, upper, lower
    ensures solver.bounds == [] && solver.scopes == []
    ensures Position(upper[..], lower[..], index, mid, solver.calls, someWork)
         == RoundOf(p, solver.oracle,
                    Position(old(upper[..]), old(lower[..]), lastIndex, lastUpper, old(solver.calls), true))
  {
    RoundStarts(p, upper[..], lower[..], lastIndex, lastUpper);
    solver.Push();
    someWork, index, mid := BisectAll(p, solver, upper, lower, lastIndex, lastUpper);
    solver.Pop();
  }

  /** The loop of a round. */
  method BisectAll(ghost p: Problem, solver: Solver, upper: array<nat>, lower: array<nat>, lastIndex: int,
                   lastUpper: nat)
    returns (someWork: bool, index: int, mid: nat)
    requires SoundOracle(p, solver.oracle) == true && solver.bounds == []
    requires lower != upper && upper.Length == p.n == lower.Length
    requires Inside(p, [], upper[..], lower[..], NoBound, lastIndex, lastUpper, true) == true
    modifies solver`bounds, solver`calls, upper, lower
    ensures Position(upper[..], lower[..], index, mid, solver.calls, someWork)
         == Search(p, solver.oracle, [], old(upper[..]), old(lower[..]), NoBound, lastIndex, lastUpper,
                   old(solver.calls))
  {
    ghost var o, l := solver.oracle, lower[..];
    ghost var target := Search(p, o, [], upper[..], l, NoBound, lastIndex, lastUpper, solver.calls);
    ghost var pending := NoBound;
    someWork, index, mid := true, lastIndex, lastUpper;
    while someWork
      invariant lower[..] == l && solver.oracle == o
      invariant someWork ==> Inside(p, solver.bounds, upper[..], l, pending, index, mid, true) == true
      invariant someWork ==> Search(p, o, solver.bounds, upper[..], l, pending, index, mid, solver.calls) == target
      invariant !someWork ==> Position(upper[..], l, index, mid, solver.calls, false) == target
      decreases someWork, pending.NoBound?, Total(upper[..])
    {
      var ans;
      ans, someWork, index, mid, pending := Halve(p, solver, upper, lower, index, mid, pending);
      if ans.Unsat? {
        RaiseLower(lower, index, mid);
        return;
      }
    }
  }

  /** The body of the loop: the search goes on from where this leaves it. */
  method Halve(ghost p: Problem, solver: Solver, upper: array<nat>, lower: array<nat>, lastIndex: int, lastUpper: nat,
               ghost pending: Pending)
    returns (ans: Answer, found: bool, index: int, mid: nat, ghost pending': Pending)
    requires SoundOracle(p, solver.oracle) == true && lower != upper && upper.Length == p.n == lower.Length
    requires Inside(p, solver.bounds, upper[..], lower[..], pending, lastIndex, lastUpper, true) == true
    modifies solver`bounds, solver`calls, upper
    ensures var was := Search(p, solver.oracle, old(solver.bounds), old(upper[..]), lower[..], pending, lastIndex,
                              lastUpper, old(solver.calls));
            if ans.Unsat? then found && -1 <= index < lower.Length
                 && was == Position(upper[..], Raised(lower[..], index, mid), index, mid, solver.calls, true)
            else if !found then was == Position(upper[..], lower[..], index, mid, solver.calls, false)
            else Inside(p, solver.bounds, upper[..], lower[..], pending', index, mid, true) == true
                 && was == Search(p, solver.oracle, solver.bounds, upper[..], lower[..], pending', index, mid,
                                  solver.calls)
    ensures ans.Sat? && found ==> pending'.Halved? && (pending.Halved? ==> Total(upper[..]) < Total(old(upper[..])))
  {
    ghost var o, bounds, u, l, calls := solver.oracle, solver.bounds, upper[..], lower[..], solver.calls;
    pending' := pending;
    ans, found, index, mid := Bisect(p, solver, upper, lower, lastIndex, lastUpper, pending);
    if ans.Unsat? {
      UnsatEnds(p, o, bounds, u, l, pending, lastIndex, lastUpper, calls);
      found := true;
    } else {
      SatStep(p, o, bounds, u, l, pending, lastIndex, lastUpper, calls, ans.values);
      if found {
        pending' := Halved(Bound(index, mid));
      }
    }
  }

  lemma UnsatEnds(p: Problem, o: Oracle, bounds: seq<Bound>, u: Values, l: Values, pending: Pending, i: int, m: nat,
                  calls: nat)
    requires SoundOracle(p, o) == true && Inside(p, bounds, u, l, pending, i, m, true) == true
    requires o(calls, bounds + BoundsOf(u)).Unsat?
    ensures -1 <= i < |l| == p.n
    ensures Search(p, o, bounds, u, l, pending, i, m, calls) == Position(u, Raised(l, i, m), i, m, calls + 1, true)
  {
    assert Sound(p, bounds + BoundsOf(u), o(calls, bounds + BoundsOf(u)));
    NoModelInside(p, bounds, u, l, pending, i, m);
  }

  lemma SatStep(p: Problem, o: Oracle, bounds: seq<Bound>, u: Values, l: Values, pending: Pending, i: int, m: nat,
                calls: nat, v: Values)
    requires SoundOracle(p, o) == true && Inside(p, bounds, u, l, pending, i, m, true) == true
    requires o(calls, bounds + BoundsOf(u)) == Sat(v)
    ensures |v| == |l| && (pending.Halved? ==> Total(v) < Total(u))
    ensures var j, here := GapFrom(l, v, 0), Search(p, o, bounds, u, l, pending, i, m, calls);
            if j == -1 then here == Position(v, l, 0, m, calls + 1, false)
            else var b, bs := Bound(j, Mid(v[j], l[j])), bounds + BoundsOf(u);
                 Inside(p, bs + [b], v, l, Halved(b), j, b.limit, true) == true
                 && here == Search(p, o, bs + [b], v, l, Halved(b), j, b.limit, calls + 1)
  {
    assert Sound(p, bounds + BoundsOf(u), Sat(v));
    BelowBounds(p, bounds, u, l, pending, i, m, v);
    var j := GapFrom(l, v, 0);
    ModelInside(p, bounds, u, l, pending, i, m, v, j != -1, if j == -1 then 0 else j);
  }

  /** A round, if there is work left. */
  method Next(ghost p: Problem, solver: Solver, upper: array<nat>, lower: array<nat>, index: int, mid: nat, work: bool)
    returns (index': int, mid': nat, work': bool)
    requires SoundOracle(p, solver.oracle) && solver.bounds == [] && solver.scopes == []
    requires lower != upper && upper.Length == p.n == lower.Length
    requires Standing(p, Position(upper[..], lower[..], index, mid, solver.calls, work)) == true
    modifies solver, upper, lower
    ensures solver.bounds == [] && solver.scopes == []
    ensures Position(upper[..], lower[..], index', mid', solver.calls, work')
         == NextOf(p, solver.oracle, Position(old(upper[..]), old(lower[..]), index, mid, old(solver.calls), work))
  {
    index', mid', work' := index, mid, work;
    if work {
      work', index', mid' := Round(p, solver, upper, lower, index, mid);
    }
  }

  method Start(ghost p: Problem, n: nat, ghost o: Oracle, ghost calls: nat)
    returns (upper: array<nat>, lower: array<nat>)
    requires SoundOracle(p, o) && n == p.n
    ensures fresh(upper) && fresh(lower) && upper != lower && upper.Length == n == lower.Length
    ensures Position(upper[..], lower[..], -1, 0, calls, true) == After(p, o, calls, 0)
  {
    upper := new nat[n](i => WORD - 1);
    lower := new nat[n](i => 0);
    assert upper[..] == MaxVector(n) && lower[..] == seq(n, _ => 0);
  }

  /** Up to k rounds: the search after k rounds, for any sound solver. */
  method Rounds(ghost p: Problem, solver: Solver, n: nat, k: nat)
    returns (someWork: bool, upper: array<nat>, lower: array<nat>, ghost end: Position)
    requires SoundOracle(p, solver.oracle) && solver.bounds == [] && solver.scopes == [] && n == p.n
    modifies solver
    ensures fresh(upper) && fresh(lower) && upper != lower && solver.bounds == [] && solver.scopes == []
    ensures end == After(p, solver.oracle, old(solver.calls), k)
    ensures end.upper == upper[..] && end.lower == lower[..] && end.calls == solver.calls && end.someWork == someWork
    ensures !someWork ==> Finished(p, upper[..]) == true
  {
    ghost var o, c0 := solver.oracle, solver.calls;
    upper, lower := Start(p, n, o, c0);
    var lastIndex, lastUpper, done := -1, 0, 0;
    someWork := true;
    end := After(p, o, c0, 0);
    while done < k
      invariant fresh(upper) && fresh(lower) && upper != lower && upper.Length == n == lower.Length && done <= k
      invariant solver.bounds == [] && solver.scopes == []
      invariant end == After(p, o, c0, done)
      invariant end == Position(upper[..], lower[..], lastIndex, lastUpper, solver.calls, someWork)
    {
      AfterStands(p, o, c0, done);
      lastIndex, lastUpper, someWork := Next(p, solver, upper, lower, lastIndex, lastUpper, someWork);
      done := done + 1;
      end := Position(upper[..], lower[..], lastIndex, lastUpper, solver.calls, someWork);
    }
    AfterStands(p, o, c0, k);
  }

  /** The whole minimisation, whenever it stops: at a minimal model, no other being pointwise
      below. */
  method CheckSmall(ghost p: Problem, solver: Solver, n: nat) returns (upper: array<nat>)
    requires SoundOracle(p, solver.oracle) && solver.bounds == [] && solver.scopes == [] && n == p.n
    requires GetsSmall(p, solver.oracle, solver.calls) == true
    modifies solver
    ensures fresh(upper) && Finished(p, upper[..]) == true
    ensures solver.bounds == [] && solver.scopes == []
  {
    StopsExactly(p, solver.oracle, solver.calls);
    ghost var stop: nat :| !After(p, solver.oracle, solver.calls, stop).someWork;
    upper := RunTo(p, solver, n, stop);
  }

  lemma NotThere(p: Problem, o: Oracle, calls: nat, k: nat, stop: nat)
    requires SoundOracle(p, o) && After(p, o, calls, k).someWork && !After(p, o, calls, stop).someWork
    ensures k != stop
  {}

  /** Rounds until there is no work left, which is so after stop rounds. */
  method RunTo(ghost p: Problem, solver: Solver, n: nat, ghost stop: nat) returns (upper: array<nat>)
    requires SoundOracle(p, solver.oracle) && solver.bounds == [] && solver.scopes == [] && n == p.n
    requires !After(p, solver.oracle, solver.calls, stop).someWork
    modifies solver
    ensures fresh(upper) && Finished(p, upper[..]) == true
    ensures solver.bounds == [] && solver.scopes == []
  {
    ghost var o, c0, done := solver.oracle, solver.calls, 0;
    var lower;
    upper, lower := Start(p, n, o, c0);
    var someWork, lastIndex, lastUpper := true, -1, 0;
    while someWork
      invariant fresh(upper) && fresh(lower) && upper != lower && upper.Length == n == lower.Length
      invariant solver.bounds == [] && solver.scopes == []
      invariant Position(upper[..], lower[..], lastIndex, lastUpper, solver.calls, someWork) == After(p, o, c0, done)
      invariant done <= stop
      decreases stop - done
    {
      NotThere(p, o, c0, done, stop);
      AfterStands(p, o, c0, done);
      lastIndex, lastUpper, someWork := Next(p, solver, upper, lower, lastIndex, lastUpper, someWork);
      done := done + 1;
    }
    AfterStands(p, o, c0, done);
  }
}
