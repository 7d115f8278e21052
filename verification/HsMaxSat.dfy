/** The hitting-set MaxSAT solver of hs.py: relaxation of cores and restriction of correction
    sets, core resolution through backbones, and the bounds between which it searches. */
module HsMaxSat {
  import opened Prop
  import opened Sets
  import opened Solver

  type Forms = set<Form>

  function Falsified(a: Assignment, S: Forms): Forms {
    set f | f in S && !Eval(f, a)
  }

  function Elements(fs: seq<Form>): Forms {
    set f | f in fs
  }

  /** How many of the original soft constraints are falsified. */
  function Cost(a: Assignment, soft: seq<Form>): nat {
    |Falsified(a, Elements(soft))|
  }

  ghost predicate FormsBelow(S: Forms, n: nat) {
    forall f | f in S :: Below(f, n)
  }

  // ---------------------------------------------------------------- definitions

  function Iff(f: Form, g: Form): Form {
    Form.Not(Xor(f, g))
  }

  lemma IffMeaning(f: Form, g: Form, m: Assignment)
    ensures Eval(Iff(f, g), m) <==> (Eval(f, m) <==> Eval(g, m))
  {
    assert Eval(Xor(f, g), m) <==> Eval(f, m) != Eval(g, m);
  }

  ghost predicate ExtendsAt(a: Assignment, n: nat, after: seq<Form>) {
    exists b :: Agree(a, b, n) && Models(b, after)
  }

  /** Every model stays one, up to the variables from n on. */
  ghost predicate Extends(before: seq<Form>, n: nat, after: seq<Form>) {
    forall a | Models(a, before) :: ExtendsAt(a, n, after)
  }

  lemma ExtendsRefl(fs: seq<Form>, n: nat)
    ensures Extends(fs, n, fs)
  {
    forall a | Models(a, fs) ensures ExtendsAt(a, n, fs) { assert Agree(a, a, n); }
  }

  lemma ExtendsTrans(x: seq<Form>, n: nat, y: seq<Form>, n': nat, z: seq<Form>)
    requires Extends(x, n, y) && Extends(y, n', z) && n <= n'
    ensures Extends(x, n, z)
  {
    forall a | Models(a, x) ensures ExtendsAt(a, n, z) {
      var b :| Agree(a, b, n) && Models(b, y);
      assert ExtendsAt(b, n', z);
      var c :| Agree(b, c, n') && Models(c, z);
      assert Agree(a, c, n);
    }
  }

  lemma DefinitionExtends(fs: seq<Form>, v: nat, fml: Form)
    requires AllBelow(fs, v) && Below(fml, v)
    ensures Extends(fs, v, fs + [Iff(Var(v), fml)])
  {
    forall a | Models(a, fs) ensures ExtendsAt(a, v, fs + [Iff(Var(v), fml)]) {
      var b := if Eval(fml, a) then a + {v} else a - {v};
      assert Agree(a, b, v);
      ModelsAgree(fs, a, b, v);
      EvalAgree(fml, a, b, v);
      IffMeaning(Var(v), fml, b);
    }
  }

  method AddDef(s: Context, fml: Form) returns (name: Form)
    requires s.Valid() && Below(fml, s.next)
    modifies s`asserted, s`next
    ensures s.Valid() && name == Var(old(s.next)) && s.next == old(s.next) + 1
    ensures s.asserted == old(s.asserted) + [Iff(name, fml)]
    ensures Extends(old(s.asserted), old(s.next), s.asserted) == true
  {
    DefinitionExtends(s.asserted, s.next, fml);
    BelowMono(fml, s.next, s.next + 1);
    name := s.FreshVar();
    s.Assert(Iff(name, fml));
  }

  // ---------------------------------------------------------------- the two transformations

  /** The new soft constraints falsify one fewer than the core, if it has a falsified member. */
  ghost predicate RelaxedAt(m: Assignment, core: seq<Form>, i: nat, prefix: Form, new_: Forms)
    requires i < |core|
  {
    && (Eval(prefix, m) <==> Count(core[..i], m) == i)
    && |Falsified(m, new_)| + (if Count(core[..i + 1], m) < i + 1 then 1 else 0) == i + 1 - Count(core[..i + 1], m)
  }

  /** The new soft constraints falsify as many as the set, if it has a true member. */
  ghost predicate RestrictedAt(m: Assignment, cs: seq<Form>, i: nat, prefix: Form, new_: Forms)
    requires i < |cs|
  {
    && (Eval(prefix, m) <==> Count(cs[..i], m) > 0)
    && |Falsified(m, new_)| == if Count(cs[..i + 1], m) == 0 then i else i + 1 - Count(cs[..i + 1], m)
  }

  lemma CountSnoc(fs: seq<Form>, i: nat, m: Assignment)
    requires i < |fs|
    ensures Count(fs[..i + 1], m) == Count(fs[..i], m) + if Eval(fs[i], m) then 1 else 0
  {
    assert fs[..i + 1][..i] == fs[..i];
  }

  lemma FalsifiedPlus(m: Assignment, S: Forms, f: Form)
    requires f !in S
    ensures |Falsified(m, S + {f})| == |Falsified(m, S)| + if Eval(f, m) then 0 else 1
  {
    if Eval(f, m) {
      assert Falsified(m, S + {f}) == Falsified(m, S);
    } else {
      assert Falsified(m, S + {f}) == Falsified(m, S) + {f};
    }
  }

  lemma RelaxStep(m: Assignment, core: seq<Form>, i: nat, prefix: Form, new_: Forms, prefix': Form, name: Form)
    requires i + 1 < |core| && RelaxedAt(m, core, i, prefix, new_) && name !in new_
    requires Eval(prefix', m) <==> Eval(And(core[i], prefix), m)
    requires Eval(name, m) <==> Eval(Or(prefix', core[i + 1]), m)
    ensures RelaxedAt(m, core, i + 1, prefix', new_ + {name})
  {
    CountSnoc(core, i, m);
    CountSnoc(core, i + 1, m);
    FalsifiedPlus(m, new_, name);
  }

  lemma RestrictStep(m: Assignment, cs: seq<Form>, i: nat, prefix: Form, new_: Forms, prefix': Form, name: Form)
    requires i + 1 < |cs| && RestrictedAt(m, cs, i, prefix, new_) && name !in new_
    requires Eval(prefix', m) <==> Eval(Or(cs[i], prefix), m)
    requires Eval(name, m) <==> Eval(And(prefix', cs[i + 1]), m)
    ensures RestrictedAt(m, cs, i + 1, prefix', new_ + {name})
  {
    CountSnoc(cs, i, m);
    CountSnoc(cs, i + 1, m);
    FalsifiedPlus(m, new_, name);
  }

  lemma {:induction false} FalsifiedList(m: Assignment, fs: seq<Form>)
    requires Distinct(fs)
    ensures |Falsified(m, Elements(fs))| == |fs| - Count(fs, m)
    decreases |fs|
  {
    if |fs| == 0 {
      assert Falsified(m, Elements(fs)) == {};
    } else {
      var k := |fs| - 1;
      FalsifiedList(m, fs[..k]);
      assert Elements(fs) == Elements(fs[..k]) + {fs[k]};
      FalsifiedPlus(m, Elements(fs[..k]), fs[k]);
    }
  }

  /** Exchanging part of the soft constraints for new ones. */
  lemma Exchanged(m: Assignment, S: Forms, part: Forms, new_: Forms)
    requires part <= S && new_ !! S
    ensures |Falsified(m, S - part + new_)| + |Falsified(m, part)| == |Falsified(m, S)| + |Falsified(m, new_)|
  {
    var rest := Falsified(m, S - part);
    assert Falsified(m, S - part + new_) == rest + Falsified(m, new_);
    assert Falsified(m, S) == rest + Falsified(m, part);
  }

  function OneIf(b: bool): nat {
    if b then 1 else 0
  }

  ghost predicate SomeFalse(m: Assignment, S: Forms) {
    exists f :: f in S && !Eval(f, m)
  }

  ghost predicate AllFalse(m: Assignment, S: Forms) {
    forall f | f in S :: !Eval(f, m)
  }

  /** Relaxing a core lowers the number of falsified constraints by one where the core has a
      falsified member, and nowhere else. */
  ghost predicate Relaxed(asserted: seq<Form>, core: Forms, S: Forms, S': Forms) {
    forall m | Models(m, asserted) :: |Falsified(m, S')| + OneIf(SomeFalse(m, core)) == |Falsified(m, S)|
  }

  /** Restricting a set leaves the number of falsified constraints alone where the set has a
      true member. */
  ghost predicate Restricted(asserted: seq<Form>, cs: Forms, S: Forms, S': Forms) {
    forall m | Models(m, asserted) :: |Falsified(m, S')| + OneIf(cs != {} && AllFalse(m, cs)) == |Falsified(m, S)|
  }

  /** The names introduced between two values of the counter. */
  ghost predicate NamesBetween(new_: Forms, lo: nat, hi: nat) {
    forall f | f in new_ :: f.Var? && lo <= f.x < hi
  }

  ghost predicate RelaxedSofar(asserted: seq<Form>, core: seq<Form>, i: nat, prefix: Form, new_: Forms)
    requires i < |core|
  {
    forall m | Models(m, asserted) :: RelaxedAt(m, core, i, prefix, new_)
  }

  ghost predicate RestrictedSofar(asserted: seq<Form>, cs: seq<Form>, i: nat, prefix: Form, new_: Forms)
    requires i < |cs|
  {
    forall m | Models(m, asserted) :: RestrictedAt(m, cs, i, prefix, new_)
  }

  lemma ModelsPrefix(m: Assignment, fs: seq<Form>, gs: seq<Form>)
    requires Models(m, gs) && fs <= gs
    ensures Models(m, fs)
  {
    forall f | f in fs ensures Eval(f, m) { assert f in gs; }
  }

  lemma RelaxRound(asserted: seq<Form>, asserted': seq<Form>, core: seq<Form>, i: nat, prefix: Form, new_: Forms,
                   prefix': Form, name: Form)
    requires i + 1 < |core| && RelaxedSofar(asserted, core, i, prefix, new_) && name !in new_
    requires asserted' == asserted + [Iff(prefix', And(core[i], prefix))] + [Iff(name, Or(prefix', core[i + 1]))]
    ensures RelaxedSofar(asserted', core, i + 1, prefix', new_ + {name})
  {
    forall m | Models(m, asserted') ensures RelaxedAt(m, core, i + 1, prefix', new_ + {name}) {
      ModelsPrefix(m, asserted, asserted');
      assert asserted'[|asserted|] in asserted' && asserted'[|asserted| + 1] in asserted';
      IffMeaning(prefix', And(core[i], prefix), m);
      IffMeaning(name, Or(prefix', core[i + 1]), m);
      RelaxStep(m, core, i, prefix, new_, prefix', name);
    }
  }

  lemma RestrictRound(asserted: seq<Form>, asserted': seq<Form>, cs: seq<Form>, i: nat, prefix: Form, new_: Forms,
                      prefix': Form, name: Form)
    requires i + 1 < |cs| && RestrictedSofar(asserted, cs, i, prefix, new_) && name !in new_
    requires asserted' == asserted + [Iff(prefix', Or(cs[i], prefix))] + [Iff(name, And(prefix', cs[i + 1]))]
    ensures RestrictedSofar(asserted', cs, i + 1, prefix', new_ + {name})
  {
    forall m | Models(m, asserted') ensures RestrictedAt(m, cs, i + 1, prefix', new_ + {name}) {
      ModelsPrefix(m, asserted, asserted');
      assert asserted'[|asserted|] in asserted' && asserted'[|asserted| + 1] in asserted';
      IffMeaning(prefix', Or(cs[i], prefix), m);
      IffMeaning(name, And(prefix', cs[i + 1]), m);
      RestrictStep(m, cs, i, prefix, new_, prefix', name);
    }
  }

  lemma RelaxDone(asserted: seq<Form>, core: seq<Form>, S: Forms, prefix: Form, new_: Forms)
    requires |core| > 0 && Distinct(core) && Elements(core) <= S && new_ !! S
    requires RelaxedSofar(asserted, core, |core| - 1, prefix, new_)
    ensures Relaxed(asserted, Elements(core), S, S - Elements(core) + new_)
  {
    forall m | Models(m, asserted)
      ensures |Falsified(m, S - Elements(core) + new_)| + OneIf(SomeFalse(m, Elements(core))) == |Falsified(m, S)|
    {
      assert RelaxedAt(m, core, |core| - 1, prefix, new_);
      assert core[..|core|] == core;
      FalsifiedList(m, core);
      Exchanged(m, S, Elements(core), new_);
      CountAll(core, m);
      assert SomeFalse(m, Elements(core)) <==> !Models(m, core);
    }
  }

  lemma RestrictDone(asserted: seq<Form>, cs: seq<Form>, S: Forms, prefix: Form, new_: Forms)
    requires |cs| > 0 && Distinct(cs) && Elements(cs) <= S && new_ !! S
    requires RestrictedSofar(asserted, cs, |cs| - 1, prefix, new_)
    ensures Restricted(asserted, Elements(cs), S, S - Elements(cs) + new_)
  {
    forall m | Models(m, asserted)
      ensures |Falsified(m, S - Elements(cs) + new_)| + OneIf(Elements(cs) != {}
              && AllFalse(m, Elements(cs))) == |Falsified(m, S)|
    {
      assert RestrictedAt(m, cs, |cs| - 1, prefix, new_);
      assert cs[..|cs|] == cs && cs[0] in Elements(cs);
      FalsifiedList(m, cs);
      Exchanged(m, S, Elements(cs), new_);
      CountNone(cs, m);
      assert AllFalse(m, Elements(cs)) <==> forall i | 0 <= i < |cs| :: !Eval(cs[i], m);
    }
  }

  /** What both transformations do to the solver. */
  twostate predicate Grown(s: Context, S': Forms)
    reads s
  {
    && s.Valid() && old(s.asserted) <= s.asserted && old(s.next) <= s.next
    && Extends(old(s.asserted), old(s.next), s.asserted) && FormsBelow(S', s.next)
  }

  /** MaxRes. */
  method RelaxCore(s: Context, coreSet: Forms, S: Forms) returns (S': Forms)
    requires s.Valid() && FormsBelow(S, s.next) && coreSet <= S
    modifies s`asserted, s`next
    ensures Grown(s, S') && S - coreSet <= S' && (coreSet != {} ==> |S'| < |S|)
    ensures Relaxed(s.asserted, coreSet, S, S') == true
  {
    var core := Listed(coreSet);
    assert Elements(core) == coreSet;
    ExtendsRefl(s.asserted, s.next);
    if |core| == 0 {
      S' := S;
      return;
    }
    var prefix, new_ := Top, {};
    StartRelax(s.asserted, core);
    for i := 0 to |core| - 1
      invariant |new_| <= i
      invariant s.Valid() && old(s.asserted) <= s.asserted && old(s.next) <= s.next
      invariant Extends(old(s.asserted), old(s.next), s.asserted) == true
      invariant RelaxedSofar(s.asserted, core, i, prefix, new_) == true
      invariant NamesBetween(new_, old(s.next), s.next) == true && Below(prefix, s.next)
    {
      var name;
      prefix, name := RelaxPair(s, core, i, prefix, new_, old(s.asserted), old(s.next));
      OneMore(new_, name, i);
      new_ := new_ + {name};
    }
    NewNames(S, new_, old(s.next), s.next);
    RelaxDone(s.asserted, core, S, prefix, new_);
    Replaced(S, core, new_);
    S' := S - coreSet + new_;
  }

  lemma OneMore(S: Forms, f: Form, i: nat)
    requires |S| <= i
    ensures |S + {f}| <= i + 1
  {}

  lemma Replaced(S: Forms, core: seq<Form>, new_: Forms)
    requires Distinct(core) && Elements(core) <= S && |new_| < |core|
    ensures |S - Elements(core) + new_| < |S|
  {
    DistinctSize(core);
    var rest := S - Elements(core);
    assert |rest| + |Elements(core)| == |S| by { assert rest + Elements(core) == S; }
    assert |rest + new_| <= |rest| + |new_| by { assert rest + new_ == rest + (new_ - rest); }
    SubsetSize(new_ - rest, new_);
  }

  lemma StartRelax(asserted: seq<Form>, core: seq<Form>)
    requires |core| > 0
    ensures RelaxedSofar(asserted, core, 0, Top, {}) && RestrictedSofar(asserted, core, 0, Bot, {})
  {
    forall m ensures RelaxedAt(m, core, 0, Top, {}) && RestrictedAt(m, core, 0, Bot, {}) {
      CountSnoc(core, 0, m);
      assert Falsified(m, {}) == {};
    }
  }

  lemma NewNames(S: Forms, new_: Forms, lo: nat, hi: nat)
    requires FormsBelow(S, lo) && NamesBetween(new_, lo, hi) && lo <= hi
    ensures new_ !! S && FormsBelow(S + new_, hi)
  {
    forall f | f in S ensures Below(f, hi) && f !in new_ { BelowMono(f, lo, hi); }
  }

  method RelaxPair(s: Context, core: seq<Form>, i: nat, prefix: Form, ghost new_: Forms, ghost start: seq<Form>,
                   ghost n: nat)
    returns (prefix': Form, name: Form)
    requires s.Valid() && i + 1 < |core| && Below(prefix, s.next) && start <= s.asserted && n <= s.next
    requires forall f | f in core :: Below(f, n)
    requires Extends(start, n, s.asserted) == true && RelaxedSofar(s.asserted, core, i, prefix, new_) == true
    requires NamesBetween(new_, n, s.next) == true
    modifies s`asserted, s`next
    ensures s.Valid() && start <= s.asserted && n <= s.next && Below(prefix', s.next)
    ensures Extends(start, n, s.asserted) == true
            && RelaxedSofar(s.asserted, core, i + 1, prefix', new_ + {name}) == true
    ensures NamesBetween(new_ + {name}, n, s.next) == true
  {
    ghost var a0, n0 := s.asserted, s.next;
    assert core[i] in core && core[i + 1] in core;
    BelowMono(core[i], n, s.next);
    BelowMono(core[i + 1], n, s.next + 1);
    prefix' := AddDef(s, And(core[i], prefix));
    ghost var a1, n1 := s.asserted, s.next;
    ExtendsTrans(start, n, a0, n0, a1);
    name := AddDef(s, Or(prefix', core[i + 1]));
    ExtendsTrans(start, n, a1, n1, s.asserted);
    RelaxRound(a0, s.asserted, core, i, prefix, new_, prefix', name);
  }

  /** The dual of MaxRes. */
  method RestrictCs(s: Context, csSet: Forms, S: Forms) returns (S': Forms)
    requires s.Valid() && FormsBelow(S, s.next) && csSet <= S
    modifies s`asserted, s`next
    ensures Grown(s, S') && S - csSet <= S' && |S'| <= |S|
    ensures Restricted(s.asserted, csSet, S, S') == true
  {
    var cs := Listed(csSet);
    assert Elements(cs) == csSet;
    ExtendsRefl(s.asserted, s.next);
    if |cs| == 0 {
      S' := S;
      return;
    }
    var prefix, new_ := Bot, {};
    StartRelax(s.asserted, cs);
    for i := 0 to |cs| - 1
      invariant |new_| <= i
      invariant s.Valid() && old(s.asserted) <= s.asserted && old(s.next) <= s.next
      invariant Extends(old(s.asserted), old(s.next), s.asserted) == true
      invariant RestrictedSofar(s.asserted, cs, i, prefix, new_) == true
      invariant NamesBetween(new_, old(s.next), s.next) == true && Below(prefix, s.next)
    {
      var name;
      prefix, name := RestrictPair(s, cs, i, prefix, new_, old(s.asserted), old(s.next));
      OneMore(new_, name, i);
      new_ := new_ + {name};
    }
    NewNames(S, new_, old(s.next), s.next);
    RestrictDone(s.asserted, cs, S, prefix, new_);
    Replaced(S, cs, new_);
    S' := S - csSet + new_;
  }

  method RestrictPair(s: Context, cs: seq<Form>, i: nat, prefix: Form, ghost new_: Forms, ghost start: seq<Form>,
                      ghost n: nat)
    returns (prefix': Form, name: Form)
    requires s.Valid() && i + 1 < |cs| && Below(prefix, s.next) && start <= s.asserted && n <= s.next
    requires forall f | f in cs :: Below(f, n)
    requires Extends(start, n, s.asserted) == true && RestrictedSofar(s.asserted, cs, i, prefix, new_) == true
    requires NamesBetween(new_, n, s.next) == true
    modifies s`asserted, s`next
    ensures s.Valid() && start <= s.asserted && n <= s.next && Below(prefix', s.next)
    ensures Extends(start, n, s.asserted) == true
            && RestrictedSofar(s.asserted, cs, i + 1, prefix', new_ + {name}) == true
    ensures NamesBetween(new_ + {name}, n, s.next) == true
  {
    ghost var a0, n0 := s.asserted, s.next;
    assert cs[i] in cs && cs[i + 1] in cs;
    BelowMono(cs[i], n, s.next);
    BelowMono(cs[i + 1], n, s.next + 1);
    prefix' := AddDef(s, Or(cs[i], prefix));
    ghost var a1, n1 := s.asserted, s.next;
    ExtendsTrans(start, n, a0, n0, a1);
    name := AddDef(s, And(prefix', cs[i + 1]));
    ExtendsTrans(start, n, a1, n1, s.asserted);
    RestrictRound(a0, s.asserted, cs, i, prefix, new_, prefix', name);
  }

  // ---------------------------------------------------------------- what every step keeps

  datatype Option<T> = None | Some(value: T)

  /** The problem solved: hard and soft constraints over the variables below base. */
  datatype Problem = Problem(hard: seq<Form>, soft: seq<Form>, base: nat)

  ghost predicate RefutesAll(asserted: seq<Form>, K: Forms) {
    forall m | Models(m, asserted) :: SomeFalse(m, K)
  }

  /** The original cost of every model is what was counted plus what is falsified now. */
  ghost predicate Conserved(p: Problem, asserted: seq<Form>, S: Forms, offset: nat) {
    forall m | Models(m, asserted) :: Cost(m, p.soft) == offset + |Falsified(m, S)|
  }

  /** Nothing better than the upper bound has been excluded. */
  ghost predicate Complete(p: Problem, asserted: seq<Form>, hi: nat) {
    forall a | Models(a, p.hard) && Cost(a, p.soft) < hi :: ExtendsAt(a, p.base, asserted)
  }

  ghost predicate LowerOk(asserted: seq<Form>, S: Forms, lo: int) {
    forall m | Models(m, asserted) :: lo <= |Falsified(m, S)|
  }

  ghost predicate Kept(p: Problem, asserted: seq<Form>, next: nat, S: Forms, offset: nat, lo: int, hi: nat) {
    && p.hard <= asserted && AllBelow(p.soft, p.base) && p.base <= next && FormsBelow(S, next)
    && Conserved(p, asserted, S, offset) && Complete(p, asserted, hi) && LowerOk(asserted, S, lo)
  }

  /** A core: cannot be satisfied together with the assertions. */
  ghost predicate IsCore(asserted: seq<Form>, S: Forms, K: Forms) {
    K <= S && K != {} && RefutesAll(asserted, K)
  }

  ghost predicate CoresOk(asserted: seq<Form>, S: Forms, Ks: seq<Forms>) {
    forall K | K in Ks :: IsCore(asserted, S, K)
  }

  /** A correction set: falsified by an assignment no better than the upper bound. */
  ghost predicate IsCorrection(S: Forms, offset: nat, hi: nat, C: Forms) {
    C <= S && offset + |C| >= hi
  }

  ghost predicate CorrectionsOk(S: Forms, offset: nat, hi: nat, Cs: seq<Forms>) {
    forall C | C in Cs :: IsCorrection(S, offset, hi, C)
  }

  lemma CostAgree(soft: seq<Form>, n: nat, a: Assignment, b: Assignment)
    requires AllBelow(soft, n) && Agree(a, b, n)
    ensures Cost(a, soft) == Cost(b, soft)
  {
    assert Falsified(a, Elements(soft)) == Falsified(b, Elements(soft)) by {
      forall f | f in soft ensures Eval(f, a) == Eval(f, b) {
        var i :| 0 <= i < |soft| && soft[i] == f;
        EvalAgree(f, a, b, n);
      }
    }
  }

  /** Relaxing a core moves one unit of cost from the constraints to the offset. */
  lemma RelaxKeeps(p: Problem, asserted: seq<Form>, next: nat, S: Forms, offset: nat, lo: int, hi: nat,
                   core: Forms, asserted': seq<Form>, next': nat, S': Forms)
    requires Kept(p, asserted, next, S, offset, lo, hi) == true && RefutesAll(asserted, core) == true
    requires asserted <= asserted' && next <= next' && FormsBelow(S', next') == true
    requires Extends(asserted, next, asserted') == true && Relaxed(asserted', core, S, S') == true
    ensures Kept(p, asserted', next', S', offset + 1, lo - 1, hi)
  {
    forall m | Models(m, asserted')
      ensures Cost(m, p.soft) == offset + 1 + |Falsified(m, S')| && lo - 1 <= |Falsified(m, S')|
    {
      ModelsPrefix(m, asserted, asserted');
    }
    CompleteGrows(p, asserted, next, asserted', hi);
  }

  lemma CompleteGrows(p: Problem, asserted: seq<Form>, next: nat, asserted': seq<Form>, hi: nat)
    requires Complete(p, asserted, hi) && p.base <= next && Extends(asserted, next, asserted')
    ensures Complete(p, asserted', hi)
  {
    forall a | Models(a, p.hard) && Cost(a, p.soft) < hi ensures ExtendsAt(a, p.base, asserted') {
      var b :| Agree(a, b, p.base) && Models(b, asserted);
      assert ExtendsAt(b, next, asserted');
      var c :| Agree(b, c, next) && Models(c, asserted');
      assert Agree(a, c, p.base);
    }
  }

  function OrAll(fs: seq<Form>): Form {
    if |fs| == 0 then Bot else Or(OrAll(fs[..|fs| - 1]), fs[|fs| - 1])
  }

  lemma {:induction false} OrAllMeaning(fs: seq<Form>, m: Assignment)
    ensures Eval(OrAll(fs), m) <==> !AllFalse(m, Elements(fs))
  {
    if |fs| > 0 {
      OrAllMeaning(fs[..|fs| - 1], m);
      assert Elements(fs) == Elements(fs[..|fs| - 1]) + {fs[|fs| - 1]};
    }
  }

  lemma {:induction false} OrAllBelow(fs: seq<Form>, n: nat)
    requires AllBelow(fs, n)
    ensures Below(OrAll(fs), n)
  {
    if |fs| > 0 { OrAllBelow(fs[..|fs| - 1], n); }
  }

  /** Restricting a correction set and asserting that one of its members holds excludes only
      assignments no better than the upper bound. */
  lemma RestrictKeeps(p: Problem, asserted: seq<Form>, next: nat, S: Forms, offset: nat, lo: int, hi: nat,
                      cs: seq<Form>, asserted': seq<Form>, next': nat, S': Forms)
    requires Kept(p, asserted, next, S, offset, lo, hi) == true && IsCorrection(S, offset, hi, Elements(cs))
    requires asserted <= asserted' && next <= next' && FormsBelow(S', next') == true
    requires Extends(asserted, next, asserted') == true && Restricted(asserted', Elements(cs), S, S') == true
    ensures Kept(p, asserted' + [OrAll(cs)], next', S', offset, lo, hi)
  {
    var all := asserted' + [OrAll(cs)];
    forall m | Models(m, all) ensures Cost(m, p.soft) == offset + |Falsified(m, S')| && lo <= |Falsified(m, S')| {
      ModelsPrefix(m, asserted', all);
      ModelsPrefix(m, asserted, all);
      assert OrAll(cs) in all;
      OrAllMeaning(cs, m);
    }
    forall a | Models(a, p.hard) && Cost(a, p.soft) < hi ensures ExtendsAt(a, p.base, all) {
      BetterSurvives(p, asserted, next, S, offset, hi, cs, asserted', a);
    }
  }

  lemma BetterSurvives(p: Problem, asserted: seq<Form>, next: nat, S: Forms, offset: nat, hi: nat,
                       cs: seq<Form>, asserted': seq<Form>, a: Assignment)
    requires AllBelow(p.soft, p.base) && p.base <= next && Conserved(p, asserted, S, offset)
             && Complete(p, asserted, hi)
    requires IsCorrection(S, offset, hi, Elements(cs)) && Extends(asserted, next, asserted') && asserted <= asserted'
    requires Models(a, p.hard) && Cost(a, p.soft) < hi
    ensures ExtendsAt(a, p.base, asserted' + [OrAll(cs)])
  {
    var b :| Agree(a, b, p.base) && Models(b, asserted);
    assert ExtendsAt(b, next, asserted');
    var c :| Agree(b, c, next) && Models(c, asserted');
    assert Agree(a, c, p.base);
    CostAgree(p.soft, p.base, a, c);
    ModelsPrefix(c, asserted, asserted');
    OrAllMeaning(cs, c);
    if AllFalse(c, Elements(cs)) {
      SubsetSize(Elements(cs), Falsified(c, S));
    }
    assert Models(c, asserted' + [OrAll(cs)]);
  }

  /** A new model is a correction set; its cost may lower the upper bound. */
  lemma ImproveKeeps(p: Problem, asserted: seq<Form>, next: nat, S: Forms, offset: nat, lo: int, hi: nat,
                     Cs: seq<Forms>, m: Assignment)
    requires Kept(p, asserted, next, S, offset, lo, hi) && CorrectionsOk(S, offset, hi, Cs) && Models(m, asserted)
    ensures var hi' := if Cost(m, p.soft) < hi then Cost(m, p.soft) else hi;
            && Kept(p, asserted, next, S, offset, lo, hi')
            && CorrectionsOk(S, offset, hi', Cs + [Falsified(m, S)])
  {}

  /** Every model falsifies a hitting set of the cores. */
  ghost predicate Hits(h: Forms, Ks: seq<Forms>) {
    forall K | K in Ks :: h * K != {}
  }

  lemma HittingBound(asserted: seq<Form>, S: Forms, Ks: seq<Forms>, lower: int)
    requires CoresOk(asserted, S, Ks) && forall h | h <= S && Hits(h, Ks) :: lower <= |h|
    ensures LowerOk(asserted, S, lower)
  {
    forall m | Models(m, asserted) ensures lower <= |Falsified(m, S)| {
      var h := Falsified(m, S);
      forall K | K in Ks ensures h * K != {} {
        assert IsCore(asserted, S, K);
        var f :| f in K && !Eval(f, m);
        assert f in h * K;
      }
      assert Hits(h, Ks);
    }
  }

  // ---------------------------------------------------------------- resolved cores

  /** backbone2core: under the assertions each set entails its key, and is part of mss. */
  ghost predicate BackboneOk(asserted: seq<Form>, mss: Forms, b2c: map<Form, Forms>) {
    forall c | c in b2c :: b2c[c] <= mss && Entails(asserted, b2c[c], c)
  }

  ghost predicate Entails(asserted: seq<Form>, K: Forms, f: Form) {
    forall m | Models(m, asserted) && !SomeFalse(m, K) :: Eval(f, m)
  }

  /** Backbone literals replaced by the sets that entail them. */
  function Resolved(core: seq<Form>, b2c: map<Form, Forms>): Forms {
    if |core| == 0 then {}
    else
      var c := core[|core| - 1];
      Resolved(core[..|core| - 1], b2c) + if c in b2c then b2c[c] else {c}
  }

  lemma {:induction false} ResolvedMembers(core: seq<Form>, b2c: map<Form, Forms>)
    ensures forall c | c in core :: (if c in b2c then b2c[c] else {c}) <= Resolved(core, b2c)
    ensures forall f | f in Resolved(core, b2c) ::
              (f in core && f !in b2c) || exists c :: c in core && c in b2c && f in b2c[c]
  {
    if |core| > 0 {
      ResolvedMembers(core[..|core| - 1], b2c);
      assert core == core[..|core| - 1] + [core[|core| - 1]];
    }
  }

  /** A resolved core is a core. */
  lemma ResolvedIsCore(asserted: seq<Form>, mss: Forms, b2c: map<Form, Forms>, core: seq<Form>)
    requires BackboneOk(asserted, mss, b2c) && Refutes(core, asserted)
    ensures RefutesAll(asserted, Resolved(core, b2c))
  {
    var K := Resolved(core, b2c);
    ResolvedMembers(core, b2c);
    forall m | Models(m, asserted) ensures SomeFalse(m, K) {
      var c :| c in core && !Eval(c, m);
      if c in b2c {
        assert Entails(asserted, b2c[c], c);
        var f :| f in b2c[c] && !Eval(f, m);
        assert f in K;
      } else {
        assert {c} <= K;
        assert c in K;
      }
    }
  }

  /** A core with p entails the negation of p from the rest. */
  lemma NewBackbone(asserted: seq<Form>, mss: Forms, b2c: map<Form, Forms>, p: Form, K: Forms)
    requires BackboneOk(asserted, mss, b2c) && RefutesAll(asserted, K) && K <= mss + {p}
    ensures BackboneOk(asserted, mss, b2c[Form.Not(p) := K - {p}])
  {
    forall m | Models(m, asserted) && !SomeFalse(m, K - {p}) ensures Eval(Form.Not(p), m) {
      var f :| f in K && !Eval(f, m);
      assert f !in K - {p};
    }
  }

  lemma CoreNotEmpty(asserted: seq<Form>, K: Forms)
    requires RefutesAll(asserted, K) && Satisfiable(asserted)
    ensures K != {}
  {
    var m :| Models(m, asserted);
    assert SomeFalse(m, K);
  }

  lemma MoreTrue(asserted: seq<Form>, mss: Forms, b2c: map<Form, Forms>, p: Form)
    requires BackboneOk(asserted, mss, b2c)
    ensures BackboneOk(asserted, mss + {p}, b2c)
  {}

  // ---------------------------------------------------------------- small disjoint sets

  function Union(sets: seq<Forms>): Forms {
    if |sets| == 0 then {} else Union(sets[..|sets| - 1]) + sets[|sets| - 1]
  }

  lemma {:induction false} UnionMembers(sets: seq<Forms>)
    ensures forall S | S in sets :: S <= Union(sets)
    ensures forall f | f in Union(sets) :: exists S :: S in sets && f in S
  {
    if |sets| > 0 {
      UnionMembers(sets[..|sets| - 1]);
      assert sets == sets[..|sets| - 1] + [sets[|sets| - 1]];
    }
  }

  ghost predicate PairwiseDisjoint(sets: seq<Forms>) {
    forall i, j | 0 <= i < j < |sets| :: sets[i] !! sets[j]
  }

  /** Sets drawn from sets, no two of which meet. */
  ghost predicate Drawn(sets: seq<Forms>, result: seq<Forms>) {
    PairwiseDisjoint(result) && forall S | S in result :: S in sets
  }

  /** Every set of up to the given size is chosen or meets a chosen one. */
  ghost predicate Maximal(sets: seq<Forms>, result: seq<Forms>, lo: nat, hi: nat) {
    forall S | S in sets && lo <= |S| < hi :: Settled(S, result)
  }

  ghost predicate Settled(S: Forms, result: seq<Forms>) {
    S in result || S * Union(result) != {}
  }

  /** The sets chosen are of the three smallest sizes, min being the smallest. */
  ghost predicate SmallestThree(sets: seq<Forms>, result: seq<Forms>, min: nat) {
    && (forall S | S in sets :: min <= |S|) && (forall S | S in result :: |S| <= min + 2)
    && Maximal(sets, result, min, min + 3)
  }

  method MinSize(sets: seq<Forms>) returns (min: nat)
    requires |sets| > 0
    ensures (exists S :: S in sets && |S| == min) && forall S | S in sets :: min <= |S|
  {
    min := |sets[0]|;
    for i := 1 to |sets|
      invariant exists S :: S in sets && |S| == min
      invariant forall j | 0 <= j < i :: min <= |sets[j]|
    {
      if |sets[i]| < min {
        min := |sets[i]|;
        assert sets[i] in sets;
      }
    }
  }

  ghost predicate SizeDone(sets: seq<Forms>, n: nat, bound: nat, result: seq<Forms>) {
    forall j | 0 <= j < n && j < |sets| && |sets[j]| == bound :: Settled(sets[j], result)
  }

  ghost predicate Inserted(sets: seq<Forms>, result: seq<Forms>, lo: nat, bound: nat, n: nat) {
    Drawn(sets, result) && Maximal(sets, result, lo, bound) && SizeDone(sets, n, bound, result)
  }

  lemma InsertStep(sets: seq<Forms>, result: seq<Forms>, lo: nat, bound: nat, n: nat)
    requires Inserted(sets, result, lo, bound, n) && n < |sets| && |sets[n]| == bound && sets[n] !! Union(result)
    ensures Inserted(sets, result + [sets[n]], lo, bound, n + 1)
    ensures Union(result + [sets[n]]) == Union(result) + sets[n]
  {
    var result' := result + [sets[n]];
    assert result'[..|result'| - 1] == result;
    UnionMembers(result);
    forall i, j | 0 <= i < j < |result'| ensures result'[i] !! result'[j] {
      assert result'[i] == result[i] && result[i] in result;
      if j < |result| { assert result'[j] == result[j]; } else { assert result[i] <= Union(result); }
    }
    forall S | Settled(S, result) ensures Settled(S, result') { SettledMore(S, result, sets[n]); }
    assert Settled(sets[n], result');
  }

  lemma InsertSkip(sets: seq<Forms>, result: seq<Forms>, lo: nat, bound: nat, n: nat)
    requires Inserted(sets, result, lo, bound, n) && n < |sets| && !(|sets[n]| == bound && sets[n] !! Union(result))
    ensures Inserted(sets, result, lo, bound, n + 1)
  {
    if |sets[n]| == bound {
      var f :| f in sets[n] && f in Union(result);
      assert f in sets[n] * Union(result);
    }
  }

  /** Adds the sets of one size that meet none chosen so far. */
  method InsertSized(bound: nat, sets: seq<Forms>, hs: Forms, result: seq<Forms>, ghost lo: nat) returns (hs': Forms,
                     result': seq<Forms>)
    requires hs == Union(result) && Drawn(sets, result) && Maximal(sets, result, lo, bound)
    ensures hs' == Union(result') && Drawn(sets, result') && Maximal(sets, result', lo, bound + 1)
    ensures forall S | S in result' :: S in result || |S| == bound
    ensures result <= result'
  {
    hs', result' := hs, result;
    for i := 0 to |sets|
      invariant hs' == Union(result') && result <= result' && Inserted(sets, result', lo, bound, i) == true
      invariant forall S | S in result' :: S in result || |S| == bound
    {
      if |sets[i]| == bound && sets[i] !! hs' {
        InsertStep(sets, result', lo, bound, i);
        result' := result' + [sets[i]];
        hs' := hs' + sets[i];
      } else {
        InsertSkip(sets, result', lo, bound, i);
      }
    }
  }

  lemma SettledMore(S: Forms, result: seq<Forms>, T: Forms)
    requires Settled(S, result)
    ensures Settled(S, result + [T])
  {
    assert (result + [T])[..|result|] == result;
    if S !in result {
      var f :| f in S * Union(result);
      assert f in S * Union(result + [T]);
    }
  }

  ghost predicate Smallest(S: Forms, sets: seq<Forms>) {
    S in sets && forall T | T in sets :: |S| <= |T|
  }

  /** Disjoint sets of the smallest three sizes, as many as fit, the first of the smallest; an
      error if there is no set. */
  method GetSmallDisjointSets(sets: seq<Forms>) returns (result: Option<seq<Forms>>)
    ensures result.None? <==> sets == []
    ensures result.Some? ==> Drawn(sets, result.value) && result.value != []
    ensures result.Some? ==> Smallest(result.value[0], sets)
    ensures result.Some? ==> exists min :: SmallestThree(sets, result.value, min)
  {
    if sets == [] {
      return None;
    }
    var min := MinSize(sets);
    var hs, r := {}, [];
    hs, r := InsertSized(min, sets, hs, r, min);
    SmallestChosen(sets, r, min);
    assert r[0] in r && Smallest(r[0], sets);
    hs, r := InsertSized(min + 1, sets, hs, r, min);
    hs, r := InsertSized(min + 2, sets, hs, r, min);
    assert SmallestThree(sets, r, min);
    result := Some(r);
  }

  lemma SmallestChosen(sets: seq<Forms>, r: seq<Forms>, min: nat)
    requires Maximal(sets, r, min, min + 1) && exists S :: S in sets && |S| == min
    ensures r != []
  {
    var S :| S in sets && |S| == min;
    assert Settled(S, r);
  }

  // ---------------------------------------------------------------- the solver

  /** What the hitting set optimiser returns: some set, and a bound on all hitting sets. */
  type Picker = (nat, seq<Forms>, Forms) -> (Forms, int)

  ghost predicate SoundPicker(pick: Picker) {
    forall n: nat, Ks, S, h | h <= S && Hits(h, Ks) :: pick(n, Ks, S).1 <= |h|
  }

  /** An optimiser that finishes: a smallest hitting set, and its size. */
  ghost predicate ExactPicker(pick: Picker) {
    SoundPicker(pick) && forall n: nat, Ks, S | Hits(S, Ks) :: Exact(pick(n, Ks, S), Ks, S)
  }

  ghost predicate Exact(picked: (Forms, int), Ks: seq<Forms>, S: Forms) {
    picked.0 <= S && Hits(picked.0, Ks) && |picked.0| == picked.1
  }

  ghost predicate SmallestHit(h: Forms, Ks: seq<Forms>, S: Forms) {
    h <= S && Hits(h, Ks) && forall g | g <= S && Hits(g, Ks) :: |h| <= |g|
  }

  lemma {:induction false} SmallestHitExists(h: Forms, Ks: seq<Forms>, S: Forms)
    requires h <= S && Hits(h, Ks)
    ensures exists g :: SmallestHit(g, Ks, S)
    decreases |h|
  {
    if g :| g <= S && Hits(g, Ks) && |g| < |h| {
      SmallestHitExists(g, Ks, S);
    } else {
      assert SmallestHit(h, Ks, S);
    }
  }

  ghost function SmallestPick(Ks: seq<Forms>, S: Forms): (Forms, int) {
    if exists g :: SmallestHit(g, Ks, S) then
      var g :| SmallestHit(g, Ks, S);
      (g, |g|)
    else ({}, 0)
  }

  lemma SmallestPickExact(h: Forms, Ks: seq<Forms>, S: Forms)
    requires h <= S && Hits(h, Ks)
    ensures SmallestPick(Ks, S).1 <= |h| && Exact(SmallestPick(Ks, S), Ks, S)
  {
    SmallestHitExists(h, Ks, S);
  }

  /** Such an optimiser exists. */
  lemma ExactPickerExists()
    ensures exists pick: Picker :: ExactPicker(pick)
  {
    var pick: Picker := (n, Ks, S) => SmallestPick(Ks, S);
    assert SoundPicker(pick) by {
      forall n: nat, Ks, S, h | h <= S && Hits(h, Ks) ensures pick(n, Ks, S).1 <= |h| { SmallestPickExact(h, Ks, S); }
    }
    forall n: nat, Ks, S | Hits(S, Ks) ensures Exact(pick(n, Ks, S), Ks, S) { SmallestPickExact(S, Ks, S); }
    assert ExactPicker(pick);
  }

  lemma CoresHit(asserted: seq<Form>, S: Forms, Ks: seq<Forms>)
    requires CoresOk(asserted, S, Ks)
    ensures Hits(S, Ks)
  {
    forall K | K in Ks ensures S * K != {} {
      assert IsCore(asserted, S, K);
      assert S * K == K;
    }
  }

  /** The model kept is one of the hard constraints, at the cost of the upper bound. */
  ghost predicate BestOk(p: Problem, model: Option<Assignment>, hi: nat) {
    match model
    case None => hi == |p.soft|
    case Some(m) => Models(m, p.hard) && Cost(m, p.soft) == hi
  }

  ghost predicate Invariant(p: Problem, asserted: seq<Form>, next: nat, S: Forms, offset: nat, lo: int, hi: nat,
                            Ks: seq<Forms>, Cs: seq<Forms>, model: Option<Assignment>) {
    && Kept(p, asserted, next, S, offset, lo, hi) && CoresOk(asserted, S, Ks)
    && CorrectionsOk(S, offset, hi, Cs) && BestOk(p, model, hi)
  }

  /** No assignment of the hard constraints costs less than the upper bound. */
  ghost predicate Optimal(p: Problem, hi: nat) {
    forall a | Models(a, p.hard) :: Cost(a, p.soft) >= hi
  }

  ghost predicate Attained(p: Problem, hi: nat) {
    exists a :: Models(a, p.hard) && Cost(a, p.soft) == hi
  }

  lemma CostBound(a: Assignment, soft: seq<Form>)
    ensures Cost(a, soft) <= |soft|
  {
    ElementsSize(soft);
    SubsetSize(Falsified(a, Elements(soft)), Elements(soft));
  }

  lemma {:induction false} ElementsSize(fs: seq<Form>)
    ensures |Elements(fs)| <= |fs|
  {
    if |fs| == 0 {
      assert Elements(fs) == {};
    } else {
      ElementsSize(fs[..|fs| - 1]);
      assert Elements(fs) == Elements(fs[..|fs| - 1]) + {fs[|fs| - 1]};
    }
  }

  /** When the bounds meet, the upper bound is the optimum, reached by some assignment unless
      the hard constraints have none. */
  lemma BoundsMeet(p: Problem, asserted: seq<Form>, next: nat, S: Forms, offset: nat, lo: int, hi: nat,
                   Ks: seq<Forms>, Cs: seq<Forms>, model: Option<Assignment>)
    requires Invariant(p, asserted, next, S, offset, lo, hi, Ks, Cs, model) && lo + offset >= hi
    ensures Optimal(p, hi)
    ensures Satisfiable(p.hard) ==> Attained(p, hi)
  {
    forall a | Models(a, p.hard) ensures Cost(a, p.soft) >= hi {
      if Cost(a, p.soft) < hi {
        var b :| Agree(a, b, p.base) && Models(b, asserted);
        CostAgree(p.soft, p.base, a, b);
      }
    }
    if a :| Models(a, p.hard) {
      CostBound(a, p.soft);
      match model
      case None =>
      case Some(m) => assert Models(m, p.hard) && Cost(m, p.soft) == hi;
    }
  }

  class HsMaxSAT {
    const s: Context
    const soft: seq<Form>
    const picker: Picker
    ghost const p: Problem
    var formulas: Forms
    var offset: nat
    var model: Option<Assignment>
    var lo: int
    var hi: nat
    var Ks: seq<Forms>
    var Cs: seq<Forms>
    var smallSetSize: int
    var numMaxResFailures: nat
    var corrSetEnabled: bool
    var picks: nat

    ghost predicate Ok()
      reads s, this`formulas, this`offset, this`model, this`lo, this`hi, this`Ks, this`Cs
    {
      && s.Valid() && soft == p.soft && SoundPicker(picker)
      && Invariant(p, s.asserted, s.next, formulas, offset, lo, hi, Ks, Cs, model)
    }

    constructor (s: Context, soft: seq<Form>, picker: Picker)
      requires s.Valid() && AllBelow(soft, s.next) && SoundPicker(picker)
      ensures this.s == s && this.soft == soft && this.picker == picker && p == Problem(s.asserted, soft, s.next)
      ensures offset == 0 && lo == 0 && hi == |soft|
      ensures Ok() == true && Steady() == true
    {
      this.s, this.soft, this.picker, p := s, soft, picker, Problem(s.asserted, soft, s.next);
      formulas, offset, model, lo, hi, Ks, Cs := set f | f in soft, 0, None, 0, |soft|, [], [];
      smallSetSize, numMaxResFailures, corrSetEnabled, picks := 6, 0, true, 0;
      new;
      Start(p, s.asserted, s.next);
    }

    method CheckSet(S: Forms) returns (ans: Answer)
      requires s.Valid()
      modifies s`calls
      ensures s.Valid()
      ensures ans.Sat? ==> Models(ans.model, s.asserted) && forall f | f in S :: Eval(f, ans.model)
      ensures ans.Unsat? ==> Refutes(ans.core, s.asserted) && forall c | c in ans.core :: c in S
    {
      var fs := Listed(S);
      ans := s.Check(fs);
      if ans.Sat? { assert forall f | f in S :: f in fs; }
    }

    /** Records a model: its correction set, and the best cost so far. */
    method Improve(newModel: Assignment) returns (better: bool)
      requires Ok() == true && Models(newModel, s.asserted)
      modifies this`Cs, this`hi, this`model
      ensures Ok() == true && Cs == old(Cs) + [Falsified(newModel, formulas)]
      ensures model == if old(model) == None || Cost(newModel, soft) <= old(hi) then Some(newModel) else old(model)
      ensures hi == (if Cost(newModel, soft) < old(hi) then Cost(newModel, soft) else old(hi)) && (better <==>
              hi < old(hi))
    {
      ImproveKeeps(p, s.asserted, s.next, formulas, offset, lo, hi, Cs, newModel);
      CostBound(newModel, soft);
      ModelsPrefix(newModel, p.hard, s.asserted);
      Cs := Cs + [Falsified(newModel, formulas)];
      var cost := Cost(newModel, soft);
      if model == None {
        model := Some(newModel);
      }
      if cost <= hi {
        model := Some(newModel);
      }
      better := cost < hi;
      if better {
        hi := cost;
      }
    }

    /** Drops members of a core while it stays one. */
    method ReduceCore(coreSet: Forms) returns (K: Forms)
      requires Ok() == true && RefutesAll(s.asserted, coreSet)
      modifies s`calls, this`Cs, this`hi, this`model
      ensures Ok() == true && K <= coreSet && RefutesAll(s.asserted, K) && hi <= old(hi) && old(Cs) <= Cs
      ensures |coreSet| <= 4 ==> K == coreSet && s.calls == old(s.calls) && Cs == old(Cs)
      ensures |coreSet| > 4 ==> |K| <= s.calls - old(s.calls) <= |coreSet| - |K| + |Cs| - |old(Cs)|
    {
      if |coreSet| <= 4 {
        return coreSet;
      }
      var core := Listed(coreSet);
      assert Elements(core) == coreSet;
      DistinctSize(core);
      var i := 0;
      while i < |core|
        invariant Ok() == true && hi <= old(hi)
        invariant Elements(core) <= coreSet && RefutesAll(s.asserted, Elements(core)) && old(Cs) <= Cs
        invariant i == s.calls - old(s.calls) <= |coreSet| - |core| + |Cs| - |old(Cs)|
        decreases |core| - i
      {
        var ans := s.Check(core[..i] + core[i + 1..]);
        if ans.Unsat? {
          CoreWithout(s.asserted, core, i, ans.core);
          core := ans.core;
        } else {
          var better := Improve(ans.model);
        }
        i := i + 1;
      }
      ElementsSize(core);
      K := set f | f in core;
    }

    method Resolve(core: seq<Form>, b2c: map<Form, Forms>) returns (K: Forms)
      ensures K == Resolved(core, b2c)
      ensures forall f :: f in K <==> exists c :: c in core && if c in b2c then f in b2c[c] else f == c
    {
      K := {};
      for i := 0 to |core|
        invariant K == Resolved(core[..i], b2c)
      {
        assert core[..i + 1][..i] == core[..i];
        if core[i] in b2c {
          K := K + b2c[core[i]];
        } else {
          K := K + {core[i]};
        }
      }
      assert core[..|core|] == core;
      ResolvedMembers(core, b2c);
    }

    /** Grows the satisfied set one constraint at a time to a maximal one; constraints that
        cannot join it yield cores, in which earlier such constraints are resolved away. */
    method TryRotate(mss0: Forms) returns (improved: bool, ghost best: Forms)
      requires Ok() == true && mss0 <= formulas && Joint(s.asserted, mss0) == true
      modifies s`calls, this`Ks, this`Cs, this`hi, this`model
      ensures Ok() == true && hi <= old(hi) && (improved <==> hi < old(hi)) && old(Ks) <= Ks && old(Cs) <= Cs
      ensures Explored(s.asserted, formulas, offset, mss0, best, Cs[|old(Cs)|..], Ks[|old(Ks)|..], hi, false) == true
      decreases hi, 0
    {
      var mss, ps := mss0, formulas - mss0;
      var backbones: Forms, b2c: map<Form, Forms> := {}, map[];
      ghost var nC, nK, m := |Cs|, |Ks|, {};
      improved := false;
      SearchStarts(s.asserted, formulas, offset, mss0, hi, false, m);
      while ps != {}
        invariant Ok() == true && hi <= old(hi) && (improved <==> hi < old(hi)) && old(Ks) <= Ks && old(Cs) <= Cs
        invariant Searching(s.asserted, formulas, offset, mss0, mss, ps, backbones, b2c, Cs[nC..], Ks[nK..], hi, false,
                            m) == true
        decreases ps
      {
        var q :| q in ps;
        var ans := CheckSet(mss + backbones + {q});
        if ans.Sat? {
          var better := RecordJoined(mss0, mss, ps, backbones, b2c, q, ans.model, nC, nK, false, m);
          mss, m := mss + {q}, ans.model;
          if better {
            improved := true;
          }
        } else {
          var K := KeepShortCore(mss0, mss, ps, backbones, b2c, q, ans.core, nC, nK, m);
          backbones := backbones + {Form.Not(q)};
          b2c := b2c[Form.Not(q) := K - {q}];
        }
        ps := ps - {q};
      }
      best := mss;
      SearchDone(s.asserted, formulas, offset, mss0, mss, backbones, b2c, Cs[nC..], Ks[nK..], hi, false, m);
      if improved {
        RotateAgain(mss0, mss, backbones, b2c, nC, nK);
      }
    }

    /** After an improvement. */
    method RotateAgain(ghost mss0: Forms, mss: Forms, ghost backbones: Forms, b2c: map<Form, Forms>, ghost nC: nat,
                       ghost nK: nat)
      requires Ok() == true && Rotation(s.asserted, formulas, mss, {}, backbones, b2c) == true
      requires nC <= |Cs| && nK <= |Ks|
      requires Explored(s.asserted, formulas, offset, mss0, mss, Cs[nC..], Ks[nK..], hi, false) == true
      modifies s`calls, this`Ks, this`Cs, this`hi, this`model
      ensures Ok() == true && hi <= old(hi) && old(Ks) <= Ks && old(Cs) <= Cs
      ensures Explored(s.asserted, formulas, offset, mss0, mss, Cs[nC..], Ks[nK..], hi, false) == true
      ensures hi == old(hi) ==>
                AllTried(s.asserted, formulas, offset, mss, b2c, mss, Cs[|old(Cs)|..], Ks[|old(Ks)|..], hi) == true
      decreases hi, 2
    {
      ghost var Cs0, Ks0, hi0 := Cs, Ks, hi;
      MssRotate(mss, b2c);
      SinceMore(Cs0, Cs, nC);
      SinceMore(Ks0, Ks, nK);
      ExploredMore(s.asserted, formulas, offset, mss0, mss, Cs0[nC..], Ks0[nK..], hi0, false, Cs[nC..], Ks[nK..], hi);
    }

    /** A constraint joins the satisfied set, and its model is recorded. */
    method RecordJoined(ghost mss0: Forms, mss: Forms, ghost ps: Forms, ghost backbones: Forms,
                        ghost b2c: map<Form, Forms>, q: Form, m: Assignment, ghost nC: nat, ghost nK: nat,
                        ghost all: bool, ghost m0: Assignment)
      returns (better: bool)
      requires Ok() == true && nC <= |Cs| && nK <= |Ks| && q in ps
      requires Searching(s.asserted, formulas, offset, mss0, mss, ps, backbones, b2c, Cs[nC..], Ks[nK..], hi, all, m0)
               == true
      requires Models(m, s.asserted) && forall f | f in mss + backbones + {q} :: Eval(f, m)
      modifies this`Cs, this`hi, this`model
      ensures Ok() == true && Cs == old(Cs) + [Falsified(m, formulas)]
      ensures hi == (if Cost(m, soft) < old(hi) then Cost(m, soft) else old(hi)) && (better <==> hi < old(hi))
      ensures Searching(s.asserted, formulas, offset, mss0, mss + {q}, ps - {q}, backbones, b2c, Cs[nC..], Ks[nK..], hi,
                        all, m) == true
    {
      ghost var Cs0, hi0 := Cs, hi;
      better := Record(mss + {q}, m, nC);
      SearchJoined(s.asserted, formulas, offset, mss0, mss, ps, backbones, b2c, Cs0[nC..], Ks[nK..], hi0, all, m0, q,
                   Cs[nC..], Ks[nK..], hi, m);
    }

    /** Improve, and what it puts on record. */
    method Record(mss: Forms, m: Assignment, ghost nC: nat) returns (better: bool)
      requires Ok() == true && Models(m, s.asserted) && (forall f | f in mss :: Eval(f, m)) && nC <= |Cs|
      modifies this`Cs, this`hi, this`model
      ensures Ok() == true && Cs == old(Cs) + [Falsified(m, formulas)]
      ensures hi == (if Cost(m, soft) < old(hi) then Cost(m, soft) else old(hi)) && (better <==> hi < old(hi))
      ensures OnRecord(s.asserted, formulas, offset, mss, Cs[nC..], hi, m) == true
    {
      better := Improve(m);
      assert Cs[|Cs| - 1] in Cs[nC..];
      Improved(p, s.asserted, formulas, offset, mss, Cs[nC..], hi, m);
    }

    /** A constraint that cannot join the satisfied set yields a core, kept if it is short. */
    method KeepShortCore(ghost mss0: Forms, ghost mss: Forms, ghost ps: Forms, ghost backbones: Forms,
                         b2c: map<Form, Forms>, q: Form, core: seq<Form>, ghost nC: nat, ghost nK: nat,
                         ghost m: Assignment)
      returns (K: Forms)
      requires Ok() == true && nC <= |Cs| && nK <= |Ks| && q in ps
      requires Searching(s.asserted, formulas, offset, mss0, mss, ps, backbones, b2c, Cs[nC..], Ks[nK..], hi, false, m)
               == true
      requires Refutes(core, s.asserted) == true && forall c | c in core :: c in mss + backbones + {q}
      modifies this`Ks
      ensures Ok() == true && K == Resolved(core, b2c) && Ks == if |K| < 20 then old(Ks) + [K] else old(Ks)
      ensures Searching(s.asserted, formulas, offset, mss0, mss, ps - {q}, backbones + {Form.Not(q)},
                        b2c[Form.Not(q) := K - {q}], Cs[nC..], Ks[nK..], hi, false, m) == true
    {
      RotationCore(s.asserted, formulas, mss, ps, backbones, b2c, q, core);
      K := Resolve(core, b2c);
      ghost var Ks0 := Ks;
      if |K| < 20 {
        AddCore(K);
        assert Ks[|Ks| - 1] in Ks[nK..];
      }
      SinceMore(Ks0, Ks, nK);
      SearchKept(s.asserted, formulas, offset, mss0, mss, ps, backbones, b2c, Cs[nC..], Ks0[nK..], hi, false, m, q, K,
                 Cs[nC..], Ks[nK..], hi);
    }

    method AddCore(K: Forms)
      requires Ok() == true && IsCore(s.asserted, formulas, K)
      modifies this`Ks
      ensures Ok() == true && Ks == old(Ks) + [K]
    {
      Ks := Ks + [K];
    }

    /** Retries without a constraint that occurs in more than one core. */
    method MssRotate(mss: Forms, b2c: map<Form, Forms>)
      requires Ok() == true && mss <= formulas && Joint(s.asserted, mss) == true
      requires forall c | c in b2c :: b2c[c] <= mss
      modifies s`calls, this`Ks, this`Cs, this`hi, this`model
      ensures Ok() == true && hi <= old(hi) && old(Ks) <= Ks && old(Cs) <= Cs
      ensures hi == old(hi) ==>
                AllTried(s.asserted, formulas, offset, mss, b2c, mss, Cs[|old(Cs)|..], Ks[|old(Ks)|..], hi) == true
      decreases hi, 1
    {
      var counts := CountOccurrences(mss, b2c);
      var rest := counts.Keys;
      ghost var nC, nK := |Cs|, |Ks|;
      while rest != {}
        invariant Ok() == true && hi == old(hi) && rest <= mss && old(Ks) <= Ks && old(Cs) <= Cs
        invariant AllTried(s.asserted, formulas, offset, mss, b2c, mss - rest, Cs[nC..], Ks[nK..], hi) == true
        decreases rest
      {
        var c :| c in rest;
        rest := rest - {c};
        ghost var Cs0, Ks0 := Cs, Ks;
        if counts[c] > 1 {
          JointLess(s.asserted, mss, c);
          var improved, best := TryRotate(mss - {c});
          if improved {
            return;
          }
          SinceMore(Cs0, Cs, nC);
          SinceMore(Ks0, Ks, nK);
          ExploredMore(s.asserted, formulas, offset, mss - {c}, best, Cs[|Cs0|..], Ks[|Ks0|..], hi, false, Cs[nC..],
                       Ks[nK..], hi);
          assert Tried(s.asserted, formulas, offset, mss - {c}, Cs[nC..], Ks[nK..], hi);
          TriedMore(s.asserted, formulas, offset, mss, b2c, mss - (rest + {c}), Cs0[nC..], Ks0[nK..], hi, Cs[nC..],
                    Ks[nK..]);
        }
      }
      assert mss - {} == mss;
    }

    /** Grows a model's satisfied set to a maximal one, collecting cores. */
    method LocalMss(newModel: Assignment) returns (ghost best: Forms)
      requires Ok() == true && Models(newModel, s.asserted)
      modifies s`calls, this`Ks, this`Cs, this`hi, this`model
      ensures Ok() == true && hi <= old(hi) && old(Ks) <= Ks && old(Cs) <= Cs
      ensures Explored(s.asserted, formulas, offset, formulas - Falsified(newModel, formulas), best, Cs[|old(Cs)|..],
                       Ks[|old(Ks)|..], hi, true) == true
    {
      var mss := formulas - Falsified(newModel, formulas);
      var ps := formulas - mss;
      var backbones: Forms, b2c: map<Form, Forms> := {}, map[];
      ghost var mss0, nC, nK, m := mss, |Cs|, |Ks|, {};
      assert !SomeFalse(newModel, mss);
      SearchStarts(s.asserted, formulas, offset, mss0, hi, true, m);
      while ps != {}
        invariant Ok() == true && hi <= old(hi) && old(Ks) <= Ks && old(Cs) <= Cs
        invariant Searching(s.asserted, formulas, offset, mss0, mss, ps, backbones, b2c, Cs[nC..], Ks[nK..], hi, true,
                            m) == true
        decreases ps
      {
        var q :| q in ps;
        var ans := CheckSet(mss + backbones + {q});
        if ans.Sat? {
          Join(mss0, mss, ps, backbones, b2c, q, ans.model, nC, nK, m);
          mss, ps, m := mss + {q}, ps - {q}, ans.model;
        } else {
          var K := KeepCore(mss0, mss, ps, backbones, b2c, q, ans.core, nC, nK, m);
          b2c := b2c[Form.Not(q) := K - {q}];
          backbones, ps := backbones + {Form.Not(q)}, ps - {q};
        }
      }
      best := mss;
      SearchDone(s.asserted, formulas, offset, mss0, mss, backbones, b2c, Cs[nC..], Ks[nK..], hi, true, m);
    }

    /** A constraint joins the satisfied set: its model is recorded, and tried for rotations if
        it is better. */
    method Join(ghost mss0: Forms, mss: Forms, ghost ps: Forms, ghost backbones: Forms, b2c: map<Form, Forms>, q: Form,
                m: Assignment, ghost nC: nat, ghost nK: nat, ghost m0: Assignment)
      requires Ok() == true && nC <= |Cs| && nK <= |Ks| && q in ps
      requires Searching(s.asserted, formulas, offset, mss0, mss, ps, backbones, b2c, Cs[nC..], Ks[nK..], hi, true, m0)
               == true
      requires Models(m, s.asserted) && forall f | f in mss + backbones + {q} :: Eval(f, m)
      modifies s`calls, this`Ks, this`Cs, this`hi, this`model
      ensures Ok() == true && hi <= old(hi) && old(Ks) <= Ks && old(Cs) <= Cs
      ensures Searching(s.asserted, formulas, offset, mss0, mss + {q}, ps - {q}, backbones, b2c, Cs[nC..], Ks[nK..], hi,
                        true, m) == true
      ensures Cost(m, soft) == hi < old(hi) ==>
                AllTried(s.asserted, formulas, offset, mss + {q}, b2c, mss + {q}, Cs[nC..], Ks[nK..], hi) == true
    {
      var better := RecordJoined(mss0, mss, ps, backbones, b2c, q, m, nC, nK, true, m0);
      if better {
        RotateJoined(mss0, mss + {q}, ps - {q}, backbones, b2c, nC, nK, m);
      }
    }

    method RotateJoined(ghost mss0: Forms, mss: Forms, ghost ps: Forms, ghost backbones: Forms, b2c: map<Form, Forms>,
                        ghost nC: nat, ghost nK: nat, ghost m: Assignment)
      requires Ok() == true && nC <= |Cs| && nK <= |Ks|
      requires Searching(s.asserted, formulas, offset, mss0, mss, ps, backbones, b2c, Cs[nC..], Ks[nK..], hi, true, m)
               == true
      modifies s`calls, this`Ks, this`Cs, this`hi, this`model
      ensures Ok() == true && hi <= old(hi) && old(Ks) <= Ks && old(Cs) <= Cs
      ensures Searching(s.asserted, formulas, offset, mss0, mss, ps, backbones, b2c, Cs[nC..], Ks[nK..], hi, true, m)
              == true
      ensures hi == old(hi) ==>
                AllTried(s.asserted, formulas, offset, mss, b2c, mss, Cs[nC..], Ks[nK..], hi) == true
    {
      ghost var Cs0, Ks0, hi0 := Cs, Ks, hi;
      MssRotate(mss, b2c);
      SinceMore(Cs0, Cs, nC);
      SinceMore(Ks0, Ks, nK);
      SearchMore(s.asserted, formulas, offset, mss0, mss, ps, backbones, b2c, Cs0[nC..], Ks0[nK..], hi0, true, m,
                 Cs[nC..], Ks[nK..], hi);
      if hi == hi0 {
        TriedMore(s.asserted, formulas, offset, mss, b2c, mss, Cs[|Cs0|..], Ks[|Ks0|..], hi, Cs[nC..], Ks[nK..]);
      }
    }

    /** A constraint that cannot join the satisfied set yields a core, resolved and reduced. */
    method KeepCore(ghost mss0: Forms, ghost mss: Forms, ghost ps: Forms, ghost backbones: Forms,
                    b2c: map<Form, Forms>, q: Form, core: seq<Form>, ghost nC: nat, ghost nK: nat, ghost m: Assignment)
      returns (K: Forms)
      requires Ok() == true && nC <= |Cs| && nK <= |Ks| && q in ps
      requires Searching(s.asserted, formulas, offset, mss0, mss, ps, backbones, b2c, Cs[nC..], Ks[nK..], hi, true, m)
               == true
      requires Refutes(core, s.asserted) == true && forall c | c in core :: c in mss + backbones + {q}
      modifies s`calls, this`Ks, this`Cs, this`hi, this`model
      ensures Ok() == true && hi <= old(hi) && Ks == old(Ks) + [K] && old(Cs) <= Cs && K <= Resolved(core, b2c)
      ensures Searching(s.asserted, formulas, offset, mss0, mss, ps - {q}, backbones + {Form.Not(q)},
                        b2c[Form.Not(q) := K - {q}], Cs[nC..], Ks[nK..], hi, true, m) == true
    {
      ghost var Cs0, Ks0, hi0 := Cs, Ks, hi;
      RotationCore(s.asserted, formulas, mss, ps, backbones, b2c, q, core);
      var resolved := Resolve(core, b2c);
      K := ReduceCore(resolved);
      RotationBackbone(s.asserted, formulas, mss, ps, backbones, b2c, q, K);
      AddCore(K);
      assert Ks[|Ks| - 1] in Ks[nK..];
      SinceMore(Ks0, Ks, nK);
      SinceMore(Cs0, Cs, nC);
      SearchKept(s.asserted, formulas, offset, mss0, mss, ps, backbones, b2c, Cs0[nC..], Ks0[nK..], hi0, true, m, q, K,
                 Cs[nC..], Ks[nK..], hi);
    }

    /** Disjoint sets of soft constraints to satisfy, until what remains is satisfiable. */
    method GetCores(hs0: Forms, core0: Forms)
      requires Ok() == true && core0 <= formulas - hs0 && RefutesAll(s.asserted, core0)
      modifies s`calls, this`Ks, this`Cs, this`hi, this`model, this`lo
      ensures Ok() == true && hi <= old(hi) && old(Ks) <= Ks && old(Cs) <= Cs
      ensures lo + offset == hi || lo == old(lo)
      ensures lo + offset == hi
              || Gathered(s.asserted, formulas, offset, hs0, core0, Cs[|old(Cs)|..], Ks[|old(Ks)|..], hi) == true
    {
      ghost var Cs0 := Cs;
      var core := ReduceCore(core0);
      if core == {} {
        CloseBounds();
        return;
      }
      CollectCores(hs0, core0, core, |Cs0|);
    }

    method CollectCores(hs0: Forms, ghost core0: Forms, core1: Forms, ghost nC: nat)
      requires Ok() == true && core1 <= core0 <= formulas - hs0 && IsCore(s.asserted, formulas, core1) == true
      requires nC <= |Cs|
      modifies s`calls, this`Ks, this`Cs, this`hi, this`model, this`lo
      ensures Ok() == true && hi <= old(hi) && old(Ks) <= Ks && old(Cs) <= Cs
      ensures lo + offset == hi || lo == old(lo)
      ensures lo + offset == hi || Gathered(s.asserted, formulas, offset, hs0, core0, Cs[nC..], Ks[|old(Ks)|..], hi)
                                   == true
    {
      var numCores: nat := 0;
      var hs, remaining, cores := hs0, formulas - hs0, [core1];
      FirstCollected(s.asserted, formulas, core1, hs0);
      while true
        invariant Ok() == true && hi <= old(hi) && lo == old(lo) && numCores <= |cores|
        invariant old(Ks) == Ks && old(Cs) <= Cs
        invariant |cores| > 0 && cores[0] <= core0 && hs0 <= hs
        invariant Collected(s.asserted, formulas, cores, numCores, hs, remaining) == true
        decreases formulas - hs, remaining
      {
        var ans := CheckSet(remaining);
        if ans.Unsat? {
          var core := CutCore(cores, numCores, hs, remaining, ans.core);
          if core == {} {
            CloseBounds();
            return;
          }
          cores := cores + [core];
          var h :| h in core;
          remaining := remaining - {h};
        } else if numCores == |cores| {
          Finish(hs0, core0, hs, cores, ans.model, nC);
          break;
        } else {
          hs := GiveUpMore(cores, numCores, hs, remaining, ans.model);
          remaining, numCores := formulas - hs, |cores|;
        }
      }
    }

    /** A model: the hitting set takes a member of every new core. */
    method GiveUpMore(cores: seq<Forms>, numCores: nat, hs: Forms, ghost remaining: Forms, m: Assignment)
      returns (hs': Forms)
      requires Ok() == true && Models(m, s.asserted) && numCores < |cores|
      requires Collected(s.asserted, formulas, cores, numCores, hs, remaining) == true
      modifies this`Cs, this`hi, this`model
      ensures Ok() == true && Cs == old(Cs) + [Falsified(m, formulas)]
      ensures hi == if Cost(m, soft) < old(hi) then Cost(m, soft) else old(hi)
      ensures hs <= hs' && formulas - hs' < formulas - hs
      ensures Collected(s.asserted, formulas, cores, |cores|, hs', formulas - hs') == true
    {
      var better := Improve(m);
      CollectedSome(s.asserted, formulas, cores, numCores, hs, remaining);
      hs' := ExtendHs(hs, cores, numCores);
      var h :| h in hs' * cores[numCores];
      assert h in formulas - hs;
    }

    /** One more core of what remains. */
    method CutCore(ghost cores: seq<Forms>, ghost numCores: nat, ghost hs: Forms, ghost remaining: Forms,
                   found: seq<Form>)
      returns (core: Forms)
      requires Ok() == true && Collected(s.asserted, formulas, cores, numCores, hs, remaining) == true
      requires numCores <= |cores| && Refutes(found, s.asserted) && forall c | c in found :: c in remaining
      modifies s`calls, this`Cs, this`hi, this`model
      ensures Ok() == true && hi <= old(hi) && old(Cs) <= Cs
      ensures core <= remaining && RefutesAll(s.asserted, core) == true
      ensures core != {} ==>
                forall h :: Collected(s.asserted, formulas, cores + [core], numCores, hs, remaining - {h}) == true
    {
      ElementsRefute(s.asserted, found);
      core := ReduceCore(Elements(found));
      if core != {} {
        CollectedMore(s.asserted, formulas, cores, numCores, hs, remaining, core);
      }
    }

    /** All cores are hit, and what is left can be satisfied: a maximal such set is explored. */
    method Finish(ghost hs0: Forms, ghost core0: Forms, hs: Forms, cores: seq<Forms>, m: Assignment, ghost nC: nat)
      requires Ok() == true && Models(m, s.asserted) && (forall f | f in formulas - hs :: Eval(f, m)) && nC <= |Cs|
      requires Collected(s.asserted, formulas, cores, |cores|, hs, formulas - hs) == true
      requires |cores| > 0 && cores[0] <= core0 && hs0 <= hs
      modifies s`calls, this`Ks, this`Cs, this`hi, this`model
      ensures Ok() == true && hi <= old(hi) && old(Ks) <= Ks && old(Cs) <= Cs
      ensures Gathered(s.asserted, formulas, offset, hs0, core0, Cs[nC..], Ks[|old(Ks)|..], hi) == true
    {
      ghost var nK, Cs0, start := |Ks|, Cs, formulas - Falsified(m, formulas);
      ghost var best := LocalMss(m);
      ghost var Ks0 := Ks;
      AddCores(cores);
      SinceMore(Cs0, Cs, nC);
      SinceMore(Ks0, Ks, nK);
      ExploredMore(s.asserted, formulas, offset, start, best, Cs[|Cs0|..], Ks0[nK..], hi, true, Cs[nC..], Ks[nK..], hi);
      assert Ks[nK..][|Ks[nK..]| - |cores|..] == cores;
      AllHit(s.asserted, formulas, cores, hs);
      assert GatheredBy(s.asserted, formulas, offset, hs0, core0, Cs[nC..], Ks[nK..], hi, hs, |cores|, start, best);
    }

    method AddCores(cores: seq<Forms>)
      requires Ok() == true && CoresOk(s.asserted, formulas, cores)
      modifies this`Ks
      ensures Ok() == true && Ks == old(Ks) + cores
    {
      Ks := Ks + cores;
    }

    /** An empty core: nothing better exists, so the bounds meet. */
    method CloseBounds()
      requires Ok() == true && RefutesAll(s.asserted, {})
      modifies this`lo
      ensures Ok() == true && lo + offset == hi
    {
      NoModels(s.asserted, formulas, hi - offset);
      lo := hi - offset;
    }

    /** One member of every new core joins the hitting set. */
    method ExtendHs(hs: Forms, cores: seq<Forms>, numCores: nat) returns (hs': Forms)
      requires numCores < |cores| && forall i | numCores <= i < |cores| :: cores[i] != {}
      ensures hs <= hs' && forall i | numCores <= i < |cores| :: hs' * cores[i] != {}
      ensures forall h | h in hs' :: h in hs || exists i :: numCores <= i < |cores| && h in cores[i]
    {
      hs' := hs;
      for j := numCores to |cores|
        invariant hs <= hs' && forall i | numCores <= i < j :: hs' * cores[i] != {}
        invariant forall h | h in hs' :: h in hs || exists i :: numCores <= i < |cores| && h in cores[i]
      {
        var h :| h in cores[j];
        hs' := hs' + {h};
        assert h in hs' * cores[j];
      }
    }

    /** A set of constraints to give up, and perhaps a better lower bound. */
    method PickHs() returns (hs: Forms)
      requires Ok() == true
      modifies this`lo, this`picks
      ensures Ok() == true && lo >= old(lo)
      ensures Ks == [] ==> hs == {} && lo == old(lo) && picks == old(picks)
      ensures Ks != [] ==> var (h, lower) := picker(old(picks), Ks, formulas);
                           hs == h && lo == (if lower > old(lo) then lower else old(lo)) && picks == old(picks) + 1
      ensures Ks != [] && ExactPicker(picker) ==> hs <= formulas && Hits(hs, Ks) && |hs| <= lo
    {
      if |Ks| == 0 {
        return {};
      }
      var (h, lower) := picker(picks, Ks, formulas);
      picks := picks + 1;
      HittingBound(s.asserted, formulas, Ks, lower);
      CoresHit(s.asserted, formulas, Ks);
      assert ExactPicker(picker) ==> Exact(picker(picks - 1, Ks, formulas), Ks, formulas);
      if lower > lo {
        lo := lower;
      }
      hs := h;
    }

    // -- relaxation and restriction

    function HasManySmallSets(sets: seq<Forms>): bool
      reads this`smallSetSize
    {
      exists S :: S in sets && |S| <= smallSetSize
    }

    /** Names are renewed, and what was found about the old constraints is forgotten. */
    method ReinitSoft(numCoresRelaxed: nat)
      requires Relaxing(numCoresRelaxed) == true
      modifies this`offset, this`lo, this`Ks, this`Cs
      ensures Ok() == true && Ks == [] && Cs == []
      ensures offset == old(offset) + numCoresRelaxed && lo + offset == old(lo + offset)
    {
      offset := offset + numCoresRelaxed;
      Ks, Cs := [], [];
      lo := lo - numCoresRelaxed;
    }

    /** The state while k cores have been relaxed and not yet been counted. */
    ghost predicate Relaxing(k: nat)
      reads s, this`formulas, this`offset, this`model, this`lo, this`hi
    {
      && s.Valid() && soft == p.soft && SoundPicker(picker)
      && Kept(p, s.asserted, s.next, formulas, offset + k, lo - k, hi) && BestOk(p, model, hi)
    }

    method RelaxAll(cores: seq<Forms>)
      requires Relaxing(0) == true && PendingCores(s.asserted, formulas, cores, 0) == true && PairwiseDisjoint(cores)
      requires smallSetSize >= 0
      modifies this`formulas, this`smallSetSize, s`asserted, s`next
      ensures Relaxing(|cores|) == true && smallSetSize >= 0
      ensures cores != [] && (forall k | 0 <= k < |cores| :: |cores[0]| <= |cores[k]|) ==>
                smallSetSize == Shrunk(old(smallSetSize), |cores[0]|)
      ensures |formulas| + |cores| <= |old(formulas)|
    {
      for k := 0 to |cores|
        invariant smallSetSize >= 0 && |formulas| + k <= |old(formulas)|
        invariant k == 0 ==> smallSetSize == old(smallSetSize)
        invariant k > 0 && (forall j | 0 <= j < |cores| :: |cores[0]| <= |cores[j]|) ==>
                    smallSetSize == Shrunk(old(smallSetSize), |cores[0]|)
        invariant Relaxing(k) == true && PendingCores(s.asserted, formulas, cores, k) == true
      {
        var smaller := if smallSetSize < |cores[k]| - 2 then smallSetSize else |cores[k]| - 2;
        smallSetSize := if smaller > 4 then smaller else 4;
        ghost var asserted, S := s.asserted, formulas;
        RelaxOne(cores[k], k);
        StillPending(asserted, S, cores, k, s.asserted, formulas);
      }
    }

    method RelaxOne(core: Forms, ghost k: nat)
      requires Relaxing(k) == true && IsCore(s.asserted, formulas, core)
      modifies this`formulas, s`asserted, s`next
      ensures Relaxing(k + 1) == true && old(formulas) - core <= formulas && old(s.asserted) <= s.asserted
      ensures |formulas| < |old(formulas)|
    {
      ghost var asserted, next, S := s.asserted, s.next, formulas;
      formulas := RelaxCore(s, core, formulas);
      RelaxKeeps(p, asserted, next, S, offset + k, lo - k, hi, core, s.asserted, s.next, formulas);
    }

    method RestrictAll(sets: seq<Forms>)
      requires Relaxing(0) == true && PendingSets(formulas, offset, hi, sets, 0) == true && PairwiseDisjoint(sets)
      modifies this`formulas, s`asserted, s`next
      ensures Relaxing(0) == true && AllDemanded(s.asserted, sets, |sets|) == true
      ensures |formulas| <= |old(formulas)| && old(s.asserted) <= s.asserted
    {
      for k := 0 to |sets|
        invariant Relaxing(0) == true && PendingSets(formulas, offset, hi, sets, k) == true
        invariant AllDemanded(s.asserted, sets, k) == true
        invariant |formulas| <= |old(formulas)| && old(s.asserted) <= s.asserted
      {
        ghost var asserted := s.asserted;
        RestrictOne(sets[k]);
        DemandedMore(asserted, s.asserted, sets, k);
      }
    }

    /** Restricts a correction set, and asserts that one of its members holds. */
    method RestrictOne(corrSet: Forms)
      requires Relaxing(0) == true && IsCorrection(formulas, offset, hi, corrSet)
      modifies this`formulas, s`asserted, s`next
      ensures Relaxing(0) == true && old(formulas) - corrSet <= formulas
      ensures old(s.asserted) <= s.asserted && Demanded(s.asserted, corrSet) == true
      ensures |formulas| <= |old(formulas)|
    {
      ghost var asserted, next, S := s.asserted, s.next, formulas;
      formulas := RestrictCs(s, corrSet, formulas);
      var cs := Listed(corrSet);
      assert Elements(cs) == corrSet;
      RestrictKeeps(p, asserted, next, S, offset, lo, hi, cs, s.asserted, s.next, formulas);
      ListedBelow(cs, S, next, s.next);
      OrDemands(s.asserted, cs);
      s.Assert(OrAll(cs));
    }

    ghost predicate Closed()
      reads this`lo, this`offset, this`hi
    {
      lo + offset >= hi
    }

    /** Between steps: while correction sets are disabled some soft constraint is falsified. */
    ghost predicate Steady()
      reads s`asserted, this`formulas, this`lo, this`offset, this`hi, this`Ks, this`smallSetSize, this`corrSetEnabled
    {
      smallSetSize >= 0 && (corrSetEnabled || Ks != [] || RefutesAll(s.asserted, formulas) || Closed())
    }

    /** Before relaxation: there is a core, or a correction set to restrict. */
    ghost predicate Probed()
      reads this`lo, this`offset, this`hi, this`Ks, this`Cs, this`smallSetSize, this`corrSetEnabled
    {
      && smallSetSize >= 0
      && (Ks != [] || NothingFalse() || Closed())
    }

    /** Whether a round of maxres asks for cores to relax. */
    function WantsCores(): bool
      reads this`Ks, this`Cs, this`smallSetSize, this`corrSetEnabled, this`numMaxResFailures
    {
      HasManySmallSets(Ks) || (!corrSetEnabled && !HasManySmallSets(Cs) && numMaxResFailures > 0)
    }

    /** Relaxes cores, restricts correction sets, or counts a failure; false if there was no
        core to choose from. */
    method MaxRes() returns (ok: bool)
      requires Ok() == true && smallSetSize >= 0
      modifies this, s`asserted, s`next
      ensures Ok() == true && hi == old(hi) && lo + offset == old(lo + offset)
      ensures smallSetSize >= 0 && (old(Probed()) ==> Steady())
      ensures !ok <==> old(Ks == [] && !corrSetEnabled && !HasManySmallSets(Cs) && numMaxResFailures > 0)
      ensures ok && old(WantsCores()) ==>
                offset > old(offset) && Ks == [] && Cs == [] && corrSetEnabled && |formulas| < |old(formulas)|
                && numMaxResFailures == 0
                && exists K :: Smallest(K, old(Ks)) && smallSetSize == Shrunk(old(smallSetSize), |K|)
      ensures ok && !old(WantsCores()) && old(corrSetEnabled && HasManySmallSets(Cs)) ==>
                offset == old(offset) && Ks == [] && Cs == [] && !corrSetEnabled && |formulas| <= |old(formulas)|
                && numMaxResFailures == 0 && smallSetSize == old(smallSetSize)
                && exists C :: Smallest(C, old(Cs)) && Demanded(s.asserted, C)
      ensures !ok ==> numMaxResFailures == 0 && smallSetSize == old(smallSetSize)
      ensures ok && !(old(WantsCores()) || old(corrSetEnabled && HasManySmallSets(Cs))) ==>
                if old(numMaxResFailures) < 3
                then numMaxResFailures == old(numMaxResFailures) + 1 && smallSetSize == old(smallSetSize)
                else numMaxResFailures == 0 && smallSetSize == old(smallSetSize) + 100
      ensures !ok || !(old(WantsCores()) || old(corrSetEnabled && HasManySmallSets(Cs))) ==>
                formulas == old(formulas) && s.asserted == old(s.asserted) && Ks == old(Ks) && Cs == old(Cs)
                && offset == old(offset) && corrSetEnabled == old(corrSetEnabled)
    {
      ok := true;
      if HasManySmallSets(Ks) || (!corrSetEnabled && !HasManySmallSets(Cs) && numMaxResFailures > 0) {
        ok := Relax();
        return;
      }
      if corrSetEnabled && HasManySmallSets(Cs) {
        Restrict();
        return;
      }
      numMaxResFailures := numMaxResFailures + 1;
      if numMaxResFailures > 3 {
        numMaxResFailures := 0;
        smallSetSize := smallSetSize + 100;
      }
    }

    /** Relaxes small disjoint cores; false if there is none. */
    method Relax() returns (ok: bool)
      requires Ok() == true && smallSetSize >= 0
      modifies this`numMaxResFailures, this`smallSetSize, this`formulas, this`offset, this`lo, this`Ks, this`Cs,
               this`corrSetEnabled, s`asserted, s`next
      ensures Ok() == true && lo + offset == old(lo + offset) && smallSetSize >= 0 && numMaxResFailures == 0
      ensures ok <==> old(Ks) != []
      ensures ok ==> offset > old(offset) && Ks == [] && Cs == [] && corrSetEnabled && |formulas| < |old(formulas)|
      ensures ok ==> exists K :: Smallest(K, old(Ks)) && smallSetSize == Shrunk(old(smallSetSize), |K|)
      ensures !ok ==> formulas == old(formulas) && s.asserted == old(s.asserted) && Ks == old(Ks) && Cs == old(Cs)
                      && offset == old(offset) && lo == old(lo) && corrSetEnabled == old(corrSetEnabled)
                      && smallSetSize == old(smallSetSize)
    {
      numMaxResFailures := 0;
      var cores := GetSmallDisjointSets(Ks);
      if cores == None {
        return false;
      }
      assert forall k | 0 <= k < |cores.value| :: cores.value[k] in cores.value && cores.value[k] in Ks;
      RelaxAll(cores.value);
      ReinitSoft(|cores.value|);
      corrSetEnabled := true;
      ok := true;
    }

    /** Restricts small disjoint correction sets. */
    method Restrict()
      requires Ok() == true && smallSetSize >= 0 && Cs != []
      modifies this`numMaxResFailures, this`formulas, this`offset, this`lo, this`Ks, this`Cs, this`corrSetEnabled,
               s`asserted, s`next
      ensures Ok() == true && lo == old(lo) && offset == old(offset) && Ks == [] && Cs == [] && !corrSetEnabled
      ensures numMaxResFailures == 0
      ensures |formulas| <= |old(formulas)| && (old(Probed()) ==> Steady())
      ensures exists C :: Smallest(C, old(Cs)) && Demanded(s.asserted, C)
    {
      ghost var asserted, S, Ks0, Cs0 := s.asserted, formulas, Ks, Cs;
      numMaxResFailures := 0;
      var sets := GetSmallDisjointSets(Cs);
      RestrictAll(sets.value);
      assert sets.value[0] in sets.value && Demanded(s.asserted, sets.value[0]);
      if Ks0 != [] || {} in Cs0 {
        StillFalsified(p, asserted, S, offset, Ks0, Cs0, s.asserted, formulas, sets.value[0]);
      }
      ReinitSoft(0);
      corrSetEnabled := false;
    }

    // -- the main loop

    /** A model of all soft constraints was found while correction sets are enabled. */
    ghost predicate NothingFalse()
      reads this`Ks, this`Cs, this`corrSetEnabled
    {
      Ks == [] && corrSetEnabled && {} in Cs
    }

    /** Gives up a hitting set and tries to satisfy the rest. */
    method Probe() returns (ghost hs: Forms, ghost ans: Answer)
      requires Ok() == true && Steady() == true
      modifies s`calls, this`lo, this`hi, this`model, this`Ks, this`Cs, this`picks
      ensures Ok() == true && hi <= old(hi) && Probed() == true && old(Ks) <= Ks && old(Cs) <= Cs
      ensures ExactPicker(picker) && !Closed() ==>
                SomeNewCore(old(Ks), Ks, formulas) == true || (old(Ks) == [] && NothingFalse() == true)
      ensures hs == if old(Ks) == [] then {} else picker(old(picks), old(Ks), formulas).0
      ensures ans.Sat? ==> Falsified(ans.model, formulas) <= hs && Cs == old(Cs) + [Falsified(ans.model, formulas)]
                           && hi == if Cost(ans.model, soft) < old(hi) then Cost(ans.model, soft) else old(hi)
      ensures ans.Unsat? ==> Closed() || Gathered(s.asserted, formulas, offset, hs, Elements(ans.core), Cs[|old(Cs)|..],
                                                  Ks[|old(Ks)|..], hi) == true
    {
      var given := PickHs();
      var answer := CheckSet(formulas - given);
      hs, ans := given, answer;
      if answer.Sat? {
        ProbeModel(given, answer.model);
      } else {
        ProbeCores(given, answer.core);
      }
    }

    /** What is left can be satisfied: the cost is within what was given up. */
    method ProbeModel(ghost hs: Forms, m: Assignment)
      requires Ok() == true && Models(m, s.asserted) && forall f | f in formulas - hs :: Eval(f, m)
      requires Steady() == true && (Ks == [] ==> hs == {})
      modifies this`Cs, this`hi, this`model
      ensures Ok() == true && Cs == old(Cs) + [Falsified(m, formulas)] && Probed() == true
      ensures hi == if Cost(m, soft) < old(hi) then Cost(m, soft) else old(hi)
      ensures (Ks != [] && |hs| <= lo) || Ks == [] ==> Closed() || NothingFalse() == true
    {
      SatisfiedRest(s.asserted, formulas, hs, m);
      ModelCost(p, s.asserted, formulas, offset, hs, m);
      var better := Improve(m);
      assert Cs[|Cs| - 1] in Cs;
    }

    /** What is left cannot be satisfied: its cores are new ones. */
    method ProbeCores(hs: Forms, found: seq<Form>)
      requires Ok() == true && Refutes(found, s.asserted) == true && forall c | c in found :: c in formulas - hs
      requires smallSetSize >= 0
      modifies s`calls, this`lo, this`hi, this`model, this`Ks, this`Cs
      ensures Ok() == true && hi <= old(hi) && old(Ks) <= Ks && old(Cs) <= Cs && Probed() == true
      ensures Closed() || lo == old(lo)
      ensures !Closed() ==> Ks != [] && (Hits(hs, old(Ks)) ==> SomeNewCore(old(Ks), Ks, formulas) == true)
      ensures !Closed() ==> Gathered(s.asserted, formulas, offset, hs, Elements(found), Cs[|old(Cs)|..],
                                     Ks[|old(Ks)|..], hi) == true
    {
      ghost var Ks0, nC := Ks, |Cs|;
      ElementsRefute(s.asserted, found);
      GetCores(hs, Elements(found));
      if !Closed() {
        var i := GatheredCore(s.asserted, formulas, offset, hs, Elements(found), Cs[nC..], Ks0, Ks, hi);
        CoreIsNew(s.asserted, formulas, hs, Ks0, Ks, i);
      }
    }

    /** What a step has done towards the end when the bounds are still apart. */
    twostate predicate Advanced()
      reads this
    {
      || |formulas| < |old(formulas)|
      || (|formulas| <= |old(formulas)| && old(corrSetEnabled) && !corrSetEnabled)
      || (formulas == old(formulas) && corrSetEnabled == old(corrSetEnabled)
          && SomeNewCore(old(Ks), Ks, formulas))
    }

    /** There is no error while the bounds are apart; with exact hitting sets there is progress. */
    method Step() returns (ok: bool)
      requires Ok() == true && Steady() == true
      modifies this, s`asserted, s`next, s`calls
      ensures Ok() == true && Steady() == true && hi <= old(hi)
      ensures ok || Closed()
      ensures ExactPicker(picker) && !Closed() ==> Advanced()
      ensures ok ==> (Ks == [] && Cs == []) || (forall K | K in Ks :: |K| > old(smallSetSize))
      ensures ok && corrSetEnabled ==> (Ks == [] && Cs == []) || (forall C | C in Cs :: |C| > old(smallSetSize))
    {
      ghost var hs, ans := Probe();
      ok := MaxRes();
    }

    /** Steps until the bounds meet, or the budget is used up: then the upper bound is the
        optimum. No error ends them before. */
    method Steps(budget: nat) returns (done: bool)
      requires Ok() == true && Steady() == true
      modifies this, s`asserted, s`next, s`calls
      ensures Ok() == true && Steady() == true && hi <= old(hi)
      ensures done ==> Optimal(p, hi) && (Satisfiable(p.hard) ==> Attained(p, hi))
    {
      var steps := 0;
      while lo + offset < hi && steps < budget
        invariant Ok() == true && Steady() == true && hi <= old(hi)
        decreases budget - steps
      {
        var ok := Step();
        assert ok || lo + offset >= hi;
        steps := steps + 1;
      }
      done := lo + offset >= hi;
      if done {
        BoundsMeet(p, s.asserted, s.next, formulas, offset, lo, hi, Ks, Cs, model);
      }
    }

    /** With exact hitting sets the bounds meet, and the upper bound is the optimum. */
    method Run()
      requires Ok() == true && Steady() == true && ExactPicker(picker)
      modifies this, s`asserted, s`next, s`calls
      ensures Ok() == true && hi <= old(hi)
      ensures Optimal(p, hi) && (Satisfiable(p.hard) ==> Attained(p, hi))
    {
      while lo + offset < hi
        invariant Ok() == true && Steady() == true && hi <= old(hi)
        decreases lo + offset < hi, |formulas|, corrSetEnabled, |Unseen(formulas, Ks)|
      {
        ghost var Ks0 := Ks;
        var ok := Step();
        assert ok || lo + offset >= hi;
        if SomeNewCore(Ks0, Ks, formulas) {
          UnseenLess(formulas, Ks0, Ks);
        }
      }
      BoundsMeet(p, s.asserted, s.next, formulas, offset, lo, hi, Ks, Cs, model);
    }
  }

  /** Cores, the first within core0, all hit by a set hs that leaves the rest satisfiable, and
      a maximal satisfiable set explored from a model of that rest. */
  ghost predicate GatheredBy(asserted: seq<Form>, S: Forms, offset: nat, hs0: Forms, core0: Forms, Cs: seq<Forms>,
                             Ks: seq<Forms>, hi: nat, hs: Forms, n: nat, start: Forms, best: Forms) {
    && hs0 <= hs && 1 <= n <= |Ks| && Ks[|Ks| - n] <= core0 && Hits(hs, Ks[|Ks| - n..]) && S - hs <= start
    && Explored(asserted, S, offset, start, best, Cs, Ks, hi, true)
  }

  ghost predicate Gathered(asserted: seq<Form>, S: Forms, offset: nat, hs0: Forms, core0: Forms, Cs: seq<Forms>,
                           Ks: seq<Forms>, hi: nat) {
    exists hs, n, start, best :: GatheredBy(asserted, S, offset, hs0, core0, Cs, Ks, hi, hs, n, start, best)
  }

  lemma GatheredCore(asserted: seq<Form>, S: Forms, offset: nat, hs0: Forms, core0: Forms, Cs: seq<Forms>,
                     Ks0: seq<Forms>, Ks: seq<Forms>, hi: nat)
    returns (i: nat)
    requires Ks0 <= Ks && Gathered(asserted, S, offset, hs0, core0, Cs, Ks[|Ks0|..], hi)
    ensures |Ks0| <= i < |Ks| && Ks[i] <= core0
  {
    var new_ := Ks[|Ks0|..];
    var hs, n, start, best :| GatheredBy(asserted, S, offset, hs0, core0, Cs, new_, hi, hs, n, start, best);
    i := |Ks| - n;
    assert new_[|new_| - n] == Ks[i];
  }

  lemma FirstCollected(asserted: seq<Form>, S: Forms, core: Forms, hs: Forms)
    requires IsCore(asserted, S, core) && core <= S - hs
    ensures Collected(asserted, S, [core], 0, hs, S - hs) == true
  {}

  lemma AllHit(asserted: seq<Form>, S: Forms, cores: seq<Forms>, hs: Forms)
    requires Collected(asserted, S, cores, |cores|, hs, S - hs)
    ensures Hits(hs, cores)
  {}

  /** The size up to which sets count as small, after a core of the given size was relaxed. */
  function Shrunk(smallSetSize: int, size: nat): int {
    if smallSetSize <= 4 || size <= 6 then 4 else if smallSetSize <= size - 2 then smallSetSize else size - 2
  }

  /** A set of constraints that was no core so far. */
  ghost predicate NewCore(K: Forms, Ks: seq<Forms>, Ks': seq<Forms>, S: Forms) {
    K in Ks' && K !in Ks && K <= S && Ks <= Ks'
  }

  ghost predicate SomeNewCore(Ks: seq<Forms>, Ks': seq<Forms>, S: Forms) {
    exists K :: NewCore(K, Ks, Ks', S)
  }

  ghost function Unseen(S: Forms, Ks: seq<Forms>): set<Forms> {
    set K: Forms | K <= S && K !in Ks
  }

  lemma UnseenLess(S: Forms, Ks: seq<Forms>, Ks': seq<Forms>)
    requires SomeNewCore(Ks, Ks', S)
    ensures |Unseen(S, Ks')| < |Unseen(S, Ks)|
  {
    var K :| NewCore(K, Ks, Ks', S);
    assert K in Unseen(S, Ks) && K !in Unseen(S, Ks');
    SubsetSize(Unseen(S, Ks'), Unseen(S, Ks));
  }

  /** A core found while a hitting set of the old ones is given up is new. */
  lemma CoreIsNew(asserted: seq<Form>, S: Forms, hs: Forms, Ks: seq<Forms>, Ks': seq<Forms>, i: nat)
    requires CoresOk(asserted, S, Ks') && Ks <= Ks' && |Ks| <= i < |Ks'| && Ks'[i] <= S - hs
    ensures Ks' != [] && (Hits(hs, Ks) ==> SomeNewCore(Ks, Ks', S))
  {
    assert Ks'[i] in Ks' && hs * Ks'[i] == {};
    if Hits(hs, Ks) { assert NewCore(Ks'[i], Ks, Ks', S); }
  }

  lemma SatisfiedRest(asserted: seq<Form>, S: Forms, hs: Forms, m: Assignment)
    requires Models(m, asserted) && forall f | f in S - hs :: Eval(f, m)
    ensures Falsified(m, S) <= hs && !(hs == {} && RefutesAll(asserted, S))
    ensures hs == {} ==> Falsified(m, S) == {}
  {
    if hs == {} { assert !SomeFalse(m, S); }
  }

  lemma ModelCost(p: Problem, asserted: seq<Form>, S: Forms, offset: nat, hs: Forms, m: Assignment)
    requires Conserved(p, asserted, S, offset) && Models(m, asserted) && Falsified(m, S) <= hs
    ensures Cost(m, p.soft) <= offset + |hs|
  {
    SubsetSize(Falsified(m, S), hs);
  }

  lemma EmptyDemanded(asserted: seq<Form>, Cs: seq<Forms>, C: Forms)
    requires Smallest(C, Cs) && Demanded(asserted, C) && {} in Cs
    ensures forall m :: !Models(m, asserted)
  {
    assert C == {};
    assert forall m :: AllFalse(m, {});
  }

  /** After a restriction every model falsifies a constraint, if there was a core before, or
      a model without falsified constraints was ruled out. */
  lemma StillFalsified(p: Problem, asserted: seq<Form>, S: Forms, offset: nat, Ks: seq<Forms>, Cs: seq<Forms>,
                       asserted': seq<Form>, S': Forms, C: Forms)
    requires Conserved(p, asserted, S, offset) && Conserved(p, asserted', S', offset) && asserted <= asserted'
    requires CoresOk(asserted, S, Ks) && Smallest(C, Cs) && Demanded(asserted', C)
    requires Ks != [] || {} in Cs
    ensures RefutesAll(asserted', S')
  {
    forall m | Models(m, asserted') ensures SomeFalse(m, S') {
      ModelsPrefix(m, asserted, asserted');
      if {} in Cs {
        EmptyDemanded(asserted', Cs, C);
      } else {
        assert IsCore(asserted, S, Ks[0]) && SomeFalse(m, Ks[0]);
        var f :| f in S && !Eval(f, m);
        assert f in Falsified(m, S);
        var g :| g in Falsified(m, S');
      }
    }
  }

  /** Every model satisfies a member of the set. */
  ghost predicate Demanded(asserted: seq<Form>, C: Forms) {
    forall m | Models(m, asserted) :: !AllFalse(m, C)
  }

  ghost predicate AllDemanded(asserted: seq<Form>, sets: seq<Forms>, k: nat) {
    forall j | 0 <= j < k && j < |sets| :: Demanded(asserted, sets[j])
  }

  lemma DemandedMore(asserted: seq<Form>, asserted': seq<Form>, sets: seq<Forms>, k: nat)
    requires AllDemanded(asserted, sets, k) && k < |sets| && asserted <= asserted' && Demanded(asserted', sets[k])
    ensures AllDemanded(asserted', sets, k + 1)
  {
    forall j | 0 <= j < k ensures Demanded(asserted', sets[j]) {
      forall m | Models(m, asserted') ensures !AllFalse(m, sets[j]) { ModelsPrefix(m, asserted, asserted'); }
    }
  }

  lemma OrDemands(asserted: seq<Form>, cs: seq<Form>)
    ensures Demanded(asserted + [OrAll(cs)], Elements(cs))
  {
    forall m | Models(m, asserted + [OrAll(cs)]) ensures !AllFalse(m, Elements(cs)) {
      assert OrAll(cs) in asserted + [OrAll(cs)];
      OrAllMeaning(cs, m);
    }
  }

  ghost predicate PendingCores(asserted: seq<Form>, S: Forms, cores: seq<Forms>, k: nat) {
    forall j | k <= j < |cores| :: IsCore(asserted, S, cores[j])
  }

  ghost predicate PendingSets(S: Forms, offset: nat, hi: nat, sets: seq<Forms>, k: nat) {
    forall j | k <= j < |sets| :: IsCorrection(S, offset, hi, sets[j])
  }

  lemma StillPending(asserted: seq<Form>, S: Forms, cores: seq<Forms>, k: nat, asserted': seq<Form>, S': Forms)
    requires PendingCores(asserted, S, cores, k) && PairwiseDisjoint(cores) && k < |cores|
    requires asserted <= asserted' && S - cores[k] <= S'
    ensures PendingCores(asserted', S', cores, k + 1)
  {
    forall j | k + 1 <= j < |cores| ensures IsCore(asserted', S', cores[j]) {
      forall m | Models(m, asserted') ensures SomeFalse(m, cores[j]) { ModelsPrefix(m, asserted, asserted'); }
    }
  }

  lemma ListedBelow(cs: seq<Form>, S: Forms, next: nat, next': nat)
    requires Elements(cs) <= S && FormsBelow(S, next) && next <= next'
    ensures Below(OrAll(cs), next')
  {
    forall i | 0 <= i < |cs| ensures Below(cs[i], next') {
      assert cs[i] in Elements(cs);
      BelowMono(cs[i], next, next');
    }
    OrAllBelow(cs, next');
  }

  /** How often each member of mss occurs in the sets. */
  method CountOccurrences(mss: Forms, b2c: map<Form, Forms>) returns (counts: map<Form, nat>)
    requires forall c | c in b2c :: b2c[c] <= mss
    ensures counts.Keys == mss && forall f | f in mss :: counts[f] == |Occurrences(b2c, b2c.Keys, f)|
  {
    counts := map c | c in mss :: 0;
    var keys, done: Forms := b2c.Keys, {};
    assert forall f :: Occurrences(b2c, {}, f) == {};
    while keys != {}
      invariant keys + done == b2c.Keys && keys !! done && Counted(mss, b2c, done, counts) == true
      decreases keys
    {
      var k :| k in keys;
      CountMore(mss, b2c, done, counts, k);
      counts := map f | f in mss :: counts[f] + if f in b2c[k] then 1 else 0;
      keys, done := keys - {k}, done + {k};
    }
    assert done == b2c.Keys;
  }

  ghost predicate Counted(mss: Forms, b2c: map<Form, Forms>, done: Forms, counts: map<Form, nat>) {
    counts.Keys == mss && forall f | f in mss :: counts[f] == |Occurrences(b2c, done, f)|
  }

  lemma CountMore(mss: Forms, b2c: map<Form, Forms>, done: Forms, counts: map<Form, nat>, k: Form)
    requires Counted(mss, b2c, done, counts) && k in b2c && k !in done
    ensures Counted(mss, b2c, done + {k}, map f | f in mss :: counts[f] + if f in b2c[k] then 1 else 0)
  {
    forall f | f in mss ensures |Occurrences(b2c, done + {k}, f)| == counts[f] + if f in b2c[k] then 1 else 0 {
      OccurrencesMore(b2c, done, k, f);
    }
  }

  lemma OccurrencesMore(b2c: map<Form, Forms>, done: Forms, k: Form, f: Form)
    requires k in b2c && k !in done
    ensures |Occurrences(b2c, done + {k}, f)| == |Occurrences(b2c, done, f)| + if f in b2c[k] then 1 else 0
  {
    var xs, ys := Occurrences(b2c, done, f), Occurrences(b2c, done + {k}, f);
    if f in b2c[k] { assert ys == xs + {k}; } else { assert ys == xs; }
  }

  function Occurrences(b2c: map<Form, Forms>, keys: Forms, f: Form): Forms {
    set k | k in keys && k in b2c && f in b2c[k]
  }

  /** What the rotation loops keep: the constraints of mss can be met together, and those
      neither in it nor still to be tried are refuted by part of it. */
  ghost predicate Rotation(asserted: seq<Form>, S: Forms, mss: Forms, ps: Forms, backbones: Forms, b2c: map<Form,
                           Forms>) {
    && mss <= S && ps <= S && BackboneOk(asserted, mss, b2c) && (forall c | c in backbones :: c in b2c)
    && Joint(asserted, mss) && forall f | f in S && f !in mss && f !in ps :: Form.Not(f) in b2c
  }

  ghost predicate Joint(asserted: seq<Form>, mss: Forms) {
    exists m :: Models(m, asserted) && !SomeFalse(m, mss)
  }

  lemma JointLess(asserted: seq<Form>, mss: Forms, c: Form)
    requires Joint(asserted, mss)
    ensures Joint(asserted, mss - {c})
  {
    var m :| Models(m, asserted) && !SomeFalse(m, mss);
    assert !SomeFalse(m, mss - {c});
  }

  /** A maximal satisfiable subset of the soft constraints. */
  ghost predicate Mss(asserted: seq<Form>, S: Forms, mss: Forms) {
    mss <= S && Joint(asserted, mss) && forall f | f in S && f !in mss :: Entails(asserted, mss, Form.Not(f))
  }

  /** A model of the satisfied set is on record: its correction set and its cost. */
  ghost predicate OnRecord(asserted: seq<Form>, S: Forms, offset: nat, mss: Forms, Cs: seq<Forms>, hi: nat,
                           m: Assignment) {
    Models(m, asserted) && !SomeFalse(m, mss) && Falsified(m, S) in Cs && hi <= offset + |Falsified(m, S)|
  }

  /** A core on record that keeps f out of the satisfied set; in try_rotate, unless it has 20
      members or more. */
  ghost predicate KeptOut(asserted: seq<Form>, mss: Forms, f: Form, Ks: seq<Forms>, all: bool) {
    exists K :: f in K && K <= mss + {f} && RefutesAll(asserted, K) && (all || |K| < 20 ==> K in Ks)
  }

  ghost predicate AllKeptOut(asserted: seq<Form>, mss: Forms, out: Forms, Ks: seq<Forms>, all: bool) {
    forall f | f in out :: KeptOut(asserted, mss, f, Ks, all)
  }

  lemma KeptOutMore(asserted: seq<Form>, mss: Forms, out: Forms, Ks: seq<Forms>, all: bool, mss': Forms,
                    Ks': seq<Forms>)
    requires AllKeptOut(asserted, mss, out, Ks, all) && mss <= mss' && forall K | K in Ks :: K in Ks'
    ensures AllKeptOut(asserted, mss', out, Ks', all)
  {
    forall f | f in out ensures KeptOut(asserted, mss', f, Ks', all) {
      assert KeptOut(asserted, mss, f, Ks, all);
      var K :| f in K && K <= mss + {f} && RefutesAll(asserted, K) && (all || |K| < 20 ==> K in Ks);
      assert K <= mss' + {f};
    }
  }

  lemma OneKeptOut(asserted: seq<Form>, mss: Forms, out: Forms, Ks: seq<Forms>, all: bool, q: Form, K: Forms,
                   Ks': seq<Forms>)
    requires AllKeptOut(asserted, mss, out, Ks, all) && forall J | J in Ks :: J in Ks'
    requires q in K && K <= mss + {q} && RefutesAll(asserted, K) && (all || |K| < 20 ==> K in Ks')
    ensures AllKeptOut(asserted, mss, out + {q}, Ks', all)
  {
    KeptOutMore(asserted, mss, out, Ks, all, mss, Ks');
    assert KeptOut(asserted, mss, q, Ks', all);
  }

  /** From the set start the search has come to the maximal satisfiable set best: the
      correction set and the cost of what it found are on record, and a core for every
      constraint left out. */
  ghost predicate Explored(asserted: seq<Form>, S: Forms, offset: nat, start: Forms, best: Forms, Cs: seq<Forms>,
                           Ks: seq<Forms>, hi: nat, all: bool) {
    && start <= best && Mss(asserted, S, best)
    && (best != start ==> S - best in Cs && hi <= offset + |S - best|)
    && AllKeptOut(asserted, best, S - best, Ks, all)
  }

  lemma ExploredMore(asserted: seq<Form>, S: Forms, offset: nat, start: Forms, best: Forms, Cs: seq<Forms>,
                     Ks: seq<Forms>, hi: nat, all: bool, Cs': seq<Forms>, Ks': seq<Forms>, hi': nat)
    requires Explored(asserted, S, offset, start, best, Cs, Ks, hi, all) && hi' <= hi
    requires (forall C | C in Cs :: C in Cs') && forall K | K in Ks :: K in Ks'
    ensures Explored(asserted, S, offset, start, best, Cs', Ks', hi', all)
  {
    KeptOutMore(asserted, best, S - best, Ks, all, best, Ks');
  }

  /** What the two searches for a maximal satisfiable set keep. */
  ghost predicate Searching(asserted: seq<Form>, S: Forms, offset: nat, start: Forms, mss: Forms, ps: Forms,
                            backbones: Forms, b2c: map<Form, Forms>, Cs: seq<Forms>, Ks: seq<Forms>, hi: nat,
                            all: bool, m: Assignment) {
    && start <= mss && Rotation(asserted, S, mss, ps, backbones, b2c)
    && (mss != start ==> OnRecord(asserted, S, offset, mss, Cs, hi, m))
    && AllKeptOut(asserted, mss, S - mss - ps, Ks, all)
  }

  lemma SearchStarts(asserted: seq<Form>, S: Forms, offset: nat, start: Forms, hi: nat, all: bool, m: Assignment)
    requires start <= S && Joint(asserted, start)
    ensures Searching(asserted, S, offset, start, start, S - start, {}, map[], [], [], hi, all, m)
  {}

  lemma SearchJoined(asserted: seq<Form>, S: Forms, offset: nat, start: Forms, mss: Forms, ps: Forms, backbones: Forms,
                     b2c: map<Form, Forms>, Cs: seq<Forms>, Ks: seq<Forms>, hi: nat, all: bool, m0: Assignment,
                     q: Form, Cs': seq<Forms>, Ks': seq<Forms>, hi': nat, m: Assignment)
    requires Searching(asserted, S, offset, start, mss, ps, backbones, b2c, Cs, Ks, hi, all, m0) && q in ps
    requires OnRecord(asserted, S, offset, mss + {q}, Cs', hi', m) && forall K | K in Ks :: K in Ks'
    ensures Searching(asserted, S, offset, start, mss + {q}, ps - {q}, backbones, b2c, Cs', Ks', hi', all, m)
  {
    forall f | f in mss + {q} ensures Eval(f, m) { assert !SomeFalse(m, mss + {q}); }
    RotationGrows(asserted, S, mss, ps, backbones, b2c, q, m);
    KeptOutMore(asserted, mss, S - mss - ps, Ks, all, mss + {q}, Ks');
    assert S - (mss + {q}) - (ps - {q}) <= S - mss - ps;
  }

  lemma SearchKept(asserted: seq<Form>, S: Forms, offset: nat, start: Forms, mss: Forms, ps: Forms, backbones: Forms,
                   b2c: map<Form, Forms>, Cs: seq<Forms>, Ks: seq<Forms>, hi: nat, all: bool, m: Assignment,
                   q: Form, K: Forms, Cs': seq<Forms>, Ks': seq<Forms>, hi': nat)
    requires Searching(asserted, S, offset, start, mss, ps, backbones, b2c, Cs, Ks, hi, all, m) && q in ps
    requires K <= mss + {q} && RefutesAll(asserted, K) && (all || |K| < 20 ==> K in Ks') && hi' <= hi
    requires (forall C | C in Cs :: C in Cs') && forall J | J in Ks :: J in Ks'
    ensures Searching(asserted, S, offset, start, mss, ps - {q}, backbones + {Form.Not(q)},
                      b2c[Form.Not(q) := K - {q}], Cs', Ks', hi', all, m)
  {
    RotationBackbone(asserted, S, mss, ps, backbones, b2c, q, K);
    OneKeptOut(asserted, mss, S - mss - ps, Ks, all, q, K, Ks');
    assert S - mss - (ps - {q}) <= S - mss - ps + {q};
  }

  lemma SearchMore(asserted: seq<Form>, S: Forms, offset: nat, start: Forms, mss: Forms, ps: Forms, backbones: Forms,
                   b2c: map<Form, Forms>, Cs: seq<Forms>, Ks: seq<Forms>, hi: nat, all: bool, m: Assignment,
                   Cs': seq<Forms>, Ks': seq<Forms>, hi': nat)
    requires Searching(asserted, S, offset, start, mss, ps, backbones, b2c, Cs, Ks, hi, all, m) && hi' <= hi
    requires (forall C | C in Cs :: C in Cs') && forall K | K in Ks :: K in Ks'
    ensures Searching(asserted, S, offset, start, mss, ps, backbones, b2c, Cs', Ks', hi', all, m)
  {
    KeptOutMore(asserted, mss, S - mss - ps, Ks, all, mss, Ks');
  }

  lemma SearchDone(asserted: seq<Form>, S: Forms, offset: nat, start: Forms, mss: Forms, backbones: Forms,
                   b2c: map<Form, Forms>, Cs: seq<Forms>, Ks: seq<Forms>, hi: nat, all: bool, m: Assignment)
    requires Searching(asserted, S, offset, start, mss, {}, backbones, b2c, Cs, Ks, hi, all, m) == true
    ensures Explored(asserted, S, offset, start, mss, Cs, Ks, hi, all)
  {
    RotationDone(asserted, S, mss, backbones, b2c);
    assert S - mss - {} == S - mss;
    if mss != start {
      forall f | f in S ensures f in Falsified(m, S) <==> f in S - mss {
        if f !in mss { assert Entails(asserted, mss, Form.Not(f)); }
      }
      assert Falsified(m, S) == S - mss;
    }
  }

  /** What was added from n on. */
  lemma SinceMore(xs: seq<Forms>, ys: seq<Forms>, n: nat)
    requires xs <= ys && n <= |xs|
    ensures forall x | x in xs[n..] :: x in ys[n..]
    ensures forall x | x in ys[|xs|..] :: x in ys[n..]
  {
    assert ys[n..][..|xs| - n] == xs[n..] && ys[n..][|xs| - n..] == ys[|xs|..];
  }

  /** What Improve has put on record. */
  lemma Improved(p: Problem, asserted: seq<Form>, S: Forms, offset: nat, mss: Forms, Cs: seq<Forms>, hi: nat,
                 m: Assignment)
    requires Conserved(p, asserted, S, offset) && Models(m, asserted) && (forall f | f in mss :: Eval(f, m))
    requires Falsified(m, S) in Cs && hi <= Cost(m, p.soft)
    ensures OnRecord(asserted, S, offset, mss, Cs, hi, m)
  {}

  /** Every member of more than one core has been tried. */
  ghost predicate AllTried(asserted: seq<Form>, S: Forms, offset: nat, mss: Forms, b2c: map<Form, Forms>, done: Forms,
                           Cs: seq<Forms>, Ks: seq<Forms>, hi: nat) {
    forall c | c in done && c in mss && |Occurrences(b2c, b2c.Keys, c)| > 1 ::
      Tried(asserted, S, offset, mss - {c}, Cs, Ks, hi)
  }

  ghost predicate Tried(asserted: seq<Form>, S: Forms, offset: nat, start: Forms, Cs: seq<Forms>, Ks: seq<Forms>,
                        hi: nat) {
    exists best :: Explored(asserted, S, offset, start, best, Cs, Ks, hi, false)
  }

  lemma TriedMore(asserted: seq<Form>, S: Forms, offset: nat, mss: Forms, b2c: map<Form, Forms>, done: Forms,
                  Cs: seq<Forms>, Ks: seq<Forms>, hi: nat, Cs': seq<Forms>, Ks': seq<Forms>)
    requires AllTried(asserted, S, offset, mss, b2c, done, Cs, Ks, hi)
    requires (forall C | C in Cs :: C in Cs') && forall K | K in Ks :: K in Ks'
    ensures AllTried(asserted, S, offset, mss, b2c, done, Cs', Ks', hi)
  {
    forall c | c in done && c in mss && |Occurrences(b2c, b2c.Keys, c)| > 1
      ensures Tried(asserted, S, offset, mss - {c}, Cs', Ks', hi)
    {
      assert Tried(asserted, S, offset, mss - {c}, Cs, Ks, hi);
      var best :| Explored(asserted, S, offset, mss - {c}, best, Cs, Ks, hi, false);
      ExploredMore(asserted, S, offset, mss - {c}, best, Cs, Ks, hi, false, Cs', Ks', hi);
    }
  }

  lemma RotationDone(asserted: seq<Form>, S: Forms, mss: Forms, backbones: Forms, b2c: map<Form, Forms>)
    requires Rotation(asserted, S, mss, {}, backbones, b2c) == true
    ensures Mss(asserted, S, mss)
  {
    forall f | f in S && f !in mss ensures Entails(asserted, mss, Form.Not(f)) {
      var K := b2c[Form.Not(f)];
      assert Entails(asserted, K, Form.Not(f));
      forall m | Models(m, asserted) && !SomeFalse(m, mss) ensures Eval(Form.Not(f), m) { assert !SomeFalse(m, K); }
    }
  }

  lemma RotationGrows(asserted: seq<Form>, S: Forms, mss: Forms, ps: Forms, backbones: Forms, b2c: map<Form, Forms>,
                      q: Form, m: Assignment)
    requires Rotation(asserted, S, mss, ps, backbones, b2c) && q in ps
    requires Models(m, asserted) && forall f | f in mss + {q} :: Eval(f, m)
    ensures Rotation(asserted, S, mss + {q}, ps - {q}, backbones, b2c)
  {
    MoreTrue(asserted, mss, b2c, q);
  }

  /** The core with the backbones resolved is a core of the soft constraints. */
  lemma RotationCore(asserted: seq<Form>, S: Forms, mss: Forms, ps: Forms, backbones: Forms, b2c: map<Form, Forms>,
                     q: Form, core: seq<Form>)
    requires Rotation(asserted, S, mss, ps, backbones, b2c) && q in ps && Refutes(core, asserted)
    requires forall c | c in core :: c in mss + backbones + {q}
    ensures IsCore(asserted, S, Resolved(core, b2c)) && Resolved(core, b2c) <= mss + {q}
  {
    ResolvedIsCore(asserted, mss, b2c, core);
    CoreNotEmpty(asserted, Resolved(core, b2c));
    ResolvedMembers(core, b2c);
  }

  lemma RotationBackbone(asserted: seq<Form>, S: Forms, mss: Forms, ps: Forms, backbones: Forms, b2c: map<Form,
                         Forms>, q: Form, K: Forms)
    requires Rotation(asserted, S, mss, ps, backbones, b2c) == true && q in ps
    requires RefutesAll(asserted, K) && K <= mss + {q}
    ensures Rotation(asserted, S, mss, ps - {q}, backbones + {Form.Not(q)}, b2c[Form.Not(q) := K - {q}])
    ensures IsCore(asserted, S, K) && q in K
  {
    NewBackbone(asserted, mss, b2c, q, K);
    CoreNotEmpty(asserted, K);
    var m :| Models(m, asserted) && !SomeFalse(m, mss);
    assert SomeFalse(m, K);
  }

  /** What the loop collecting cores keeps: cores not seen by the hitting set yet avoid it. */
  ghost predicate Collected(asserted: seq<Form>, S: Forms, cores: seq<Forms>, numCores: nat, hs: Forms,
                            remaining: Forms) {
    && CoresOk(asserted, S, cores) && remaining <= S - hs && (numCores == |cores| ==> remaining == S - hs)
    && (forall i | 0 <= i < numCores && i < |cores| :: hs * cores[i] != {})
    && forall i | numCores <= i < |cores| :: cores[i] <= S - hs
  }

  lemma CollectedMore(asserted: seq<Form>, S: Forms, cores: seq<Forms>, numCores: nat, hs: Forms, remaining: Forms,
                      core: Forms)
    requires Collected(asserted, S, cores, numCores, hs, remaining) && core != {} && core <= remaining
             && RefutesAll(asserted, core) && numCores <= |cores|
    ensures forall h :: Collected(asserted, S, cores + [core], numCores, hs, remaining - {h})
  {}

  lemma CollectedSome(asserted: seq<Form>, S: Forms, cores: seq<Forms>, numCores: nat, hs: Forms, remaining: Forms)
    requires Collected(asserted, S, cores, numCores, hs, remaining) && numCores < |cores|
    ensures forall i | numCores <= i < |cores| :: cores[i] != {} && cores[i] <= S - hs
    ensures forall hs' | hs <= hs' && (forall i | numCores <= i < |cores| :: hs' * cores[i] != {}) ::
              Collected(asserted, S, cores, |cores|, hs', S - hs')
  {
    forall i | numCores <= i < |cores| ensures cores[i] != {} { assert cores[i] in cores; }
  }

  lemma ElementsRefute(asserted: seq<Form>, core: seq<Form>)
    requires Refutes(core, asserted)
    ensures RefutesAll(asserted, Elements(core))
  {
    forall m | Models(m, asserted) ensures SomeFalse(m, Elements(core)) {
      var f :| f in core && !Eval(f, m);
      assert f in Elements(core);
    }
  }

  lemma NoModels(asserted: seq<Form>, S: Forms, lo: int)
    requires RefutesAll(asserted, {})
    ensures LowerOk(asserted, S, lo)
  {
    assert forall m :: !SomeFalse(m, {});
  }

  lemma Start(p: Problem, asserted: seq<Form>, next: nat)
    requires AllBelow(p.soft, p.base) && asserted == p.hard && next == p.base
    ensures Invariant(p, asserted, next, Elements(p.soft), 0, 0, |p.soft|, [], [], None)
  {
    forall a | Models(a, p.hard) ensures ExtendsAt(a, p.base, asserted) { assert Agree(a, a, p.base); }
    forall f | f in Elements(p.soft) ensures Below(f, next) {
      var i :| 0 <= i < |p.soft| && p.soft[i] == f;
    }
  }

  lemma CoreWithout(asserted: seq<Form>, core: seq<Form>, i: nat, sub: seq<Form>)
    requires i < |core| && Sound(Unsat(sub), asserted, core[..i] + core[i + 1..])
    ensures Elements(sub) <= Elements(core) && RefutesAll(asserted, Elements(sub)) && |sub| < |core|
  {
    forall m | Models(m, asserted) ensures SomeFalse(m, Elements(sub)) {
      var f :| f in sub && !Eval(f, m);
      assert f in Elements(sub);
    }
    DistinctWithin(sub, core[..i] + core[i + 1..]);
  }

  lemma DistinctWithin(sub: seq<Form>, fs: seq<Form>)
    requires Distinct(sub) && forall c | c in sub :: c in fs
    ensures |sub| <= |fs|
  {
    DistinctSize(sub);
    ElementsSize(fs);
    SubsetSize(Elements(sub), Elements(fs));
  }

  lemma {:induction false} DistinctSize(fs: seq<Form>)
    requires Distinct(fs)
    ensures |Elements(fs)| == |fs|
  {
    if |fs| == 0 {
      assert Elements(fs) == {};
    } else {
      DistinctSize(fs[..|fs| - 1]);
      assert Elements(fs) == Elements(fs[..|fs| - 1]) + {fs[|fs| - 1]};
    }
  }
}
