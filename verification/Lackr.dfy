/** The Ackermannization engine of lackr.cpp: it collects the terms to abstract, replaces
    them by constants, and adds congruence lemmas, all at once or on demand. */
module Lackr {
  import opened Terms
  import opened Ackr
  import opened AckrHelper
  import opened ModelConverter
  import opened Sets
  import opened Words

  // ---------------------------------------------------------------- the term traversal

  function NonSelects(V: set<Term>): set<Term> {
    set t, k | t in V && k in NonSelectArgs(t) :: k
  }

  /** Termination: nodes of the tree, and the tree's height. */
  function Height(t: Term): nat
    decreases t, 1
  {
    1 + match t
        case App(_, args) => HeightAll(args)
        case Op(_, args) => HeightAll(args)
        case _ => 0
  }

  function HeightAll(ts: seq<Term>): (h: nat)
    ensures forall t | t in ts :: Height(t) <= h
    decreases ts, 0
  {
    if |ts| == 0 then 0
    else
      var x, y := Height(ts[0]), HeightAll(ts[1..]);
      if x > y then x else y
  }

  /** The state of the traversal: the terms visited so far are closed and classified, and
      whatever is not visited is still to be reached from the stack. */
  ghost predicate Traversal(formulas: seq<Term>, stack: seq<Term>, visited: set<Term>,
                            f2t: Groups, s2t: Groups, nonSelect: set<Term>, nonFuns: set<nat>) {
    var S := SubtermsAll(formulas);
    && visited <= S && (forall t | t in stack :: t in S)
    && (forall f | f in formulas :: f in visited || f in stack)
    && Closed(visited) && (forall t | t in visited :: !t.Quantified?)
    && Grouped(visited, f2t, true) && Grouped(visited, s2t, false)
    && nonSelect == NonSelects(visited)
    && (forall f :: f in nonFuns <==> AsArray(f) in visited)
  }

  /** Visiting a term whose arguments have all been visited. */
  lemma Visit(formulas: seq<Term>, stack: seq<Term>, visited: set<Term>, f2t: Groups, s2t: Groups,
              nonSelect: set<Term>, nonFuns: set<nat>, a: Term)
    requires Traversal(formulas, stack, visited, f2t, s2t, nonSelect, nonFuns)
    requires |stack| > 0 && a == stack[|stack| - 1] && !a.Quantified? && a !in visited
    requires forall k | k in Kids(a) :: k in visited
    ensures Traversal(formulas, stack[..|stack| - 1], visited + {a},
                      if KeyOf(a).FunKey? then Inserted(f2t, KeyOf(a).f, a) else f2t,
                      if KeyOf(a).ArrayKey? then Inserted(s2t, KeyOf(a).c, a) else s2t,
                      nonSelect + NonSelectArgs(a),
                      if a.AsArray? then nonFuns + {a.f} else nonFuns)
  {
    if KeyOf(a).FunKey? { InsertedGroups(visited, f2t, true, KeyOf(a).f, a); }
    else { UngroupedTerm(visited, f2t, true, a); }
    if KeyOf(a).ArrayKey? { InsertedGroups(visited, s2t, false, KeyOf(a).c, a); }
    else { UngroupedTerm(visited, s2t, false, a); }
    assert NonSelects(visited + {a}) == NonSelects(visited) + NonSelectArgs(a);
    assert stack == stack[..|stack| - 1] + [a];
  }

  lemma DropVisited(formulas: seq<Term>, stack: seq<Term>, visited: set<Term>, f2t: Groups, s2t: Groups,
                    nonSelect: set<Term>, nonFuns: set<nat>)
    requires Traversal(formulas, stack, visited, f2t, s2t, nonSelect, nonFuns)
    requires |stack| > 0 && stack[|stack| - 1] in visited
    ensures Traversal(formulas, stack[..|stack| - 1], visited, f2t, s2t, nonSelect, nonFuns)
  {
    assert stack == stack[..|stack| - 1] + [stack[|stack| - 1]];
  }

  lemma PushedArgs(formulas: seq<Term>, stack: seq<Term>, stack': seq<Term>, visited: set<Term>, f2t: Groups,
                   s2t: Groups,
                   nonSelect: set<Term>, nonFuns: set<nat>)
    requires Traversal(formulas, stack, visited, f2t, s2t, nonSelect, nonFuns)
    requires |stack| > 0 && stack <= stack'
    requires forall t | t in stack' :: t in stack || t in Kids(stack[|stack| - 1])
    requires stack'[|stack'| - 1] in Kids(stack[|stack| - 1]) && stack'[|stack'| - 1] !in visited
    requires stack[|stack| - 1] !in visited
    ensures Traversal(formulas, stack', visited, f2t, s2t, nonSelect, nonFuns)
    ensures OnVisited(stack', visited) == OnVisited(stack, visited)
            && TopRank(stack', visited) < TopRank(stack, visited)
  {
    KidsLower(stack[|stack| - 1]);
    SubtermsAllClosed(formulas);
    assert stack[|stack| - 1] in stack;
    assert forall t | t in stack :: t in stack';
  }

  lemma KidsLower(t: Term)
    ensures forall k | k in Kids(t) :: Height(k) < Height(t)
  {}

  /** Termination of the traversal: between two visits it first drops visited terms from the
      stack and then descends. */
  function OnVisited(stack: seq<Term>, visited: set<Term>): nat {
    if |stack| > 0 && stack[|stack| - 1] in visited then 1 else 0
  }

  function TopRank(stack: seq<Term>, visited: set<Term>): nat {
    if |stack| == 0 then 0
    else if stack[|stack| - 1] in visited then |stack|
    else Height(stack[|stack| - 1])
  }

  lemma LessToVisit(S: set<Term>, stack: seq<Term>, visited: set<Term>)
    requires |stack| > 0 && stack[|stack| - 1] in S && stack[|stack| - 1] !in visited
    ensures |S - (visited + {stack[|stack| - 1]})| < |S - visited|
  {
    SubsetSize(S - (visited + {stack[|stack| - 1]}), S - visited);
  }

  lemma TraversalDone(formulas: seq<Term>, visited: set<Term>, f2t: Groups, s2t: Groups, nonSelect: set<Term>,
                      nonFuns: set<nat>)
    requires Traversal(formulas, [], visited, f2t, s2t, nonSelect, nonFuns)
    ensures visited == SubtermsAll(formulas)
  {
    SubtermsAllLeast(formulas, visited);
  }

  /** What the traversal leaves, after pruning: the groups of functions not used as arrays,
      and of array constants that occur in selects only. */
  ghost predicate Collected(S: set<Term>, f2t: Groups, s2t: Groups) {
    && (forall f :: f in f2t <==> GroupOf(S, FunKey(f)) != NO_APPS && AsArray(f) !in S)
    && (forall f | f in f2t :: f2t[f] == GroupOf(S, FunKey(f)))
    && (forall c :: c in s2t <==> GroupOf(S, ArrayKey(c)) != NO_APPS && Const(c) !in NonSelects(S))
    && (forall c | c in s2t :: s2t[c] == GroupOf(S, ArrayKey(c)))
  }

  /** The terms to abstract. */
  ghost predicate Chosen(f2t: Groups, s2t: Groups, t: Term) {
    match KeyOf(t)
    case FunKey(f) => f in f2t && t in f2t[f].constArgs + f2t[f].varArgs
    case ArrayKey(c) => c in s2t && t in s2t[c].constArgs + s2t[c].varArgs
    case NoKey => false
  }

  /** The terms abstracted are the chosen ones. */
  ghost predicate AllChosen(s: map<Term, nat>, f2t: Groups, s2t: Groups) {
    forall t :: t in s <==> Chosen(f2t, s2t, t)
  }

  /** No application is left in the abstraction but of functions also used as arrays, and no
      select but from arrays that also occur elsewhere. */
  ghost predicate Eliminated(formulas: seq<Term>, abstr: seq<Term>, base: nat) {
    && (forall t | t in SubtermsAll(abstr) && t.App? && |t.args| > 0 :: AsArray(t.f) in SubtermsAll(formulas))
    && (forall t | t in SubtermsAll(abstr) && SelectsFrom(t, base) :: UsedElsewhere(SubtermsAll(formulas), t.args[0]))
  }

  /** A select from an array constant of the formulas. */
  predicate SelectsFrom(t: Term, base: nat) {
    t.Op? && t.o == Select && |t.args| > 0 && t.args[0].Const? && t.args[0].c < base
  }

  /** An argument somewhere, and not as the array of a select. */
  ghost predicate UsedElsewhere(S: set<Term>, c: Term) {
    exists u, i :: u in S && ArgumentAt(u, i, c) && !(u.Op? && u.o == Select && i == 0)
  }

  predicate ArgumentAt(u: Term, i: int, c: Term) {
    0 <= i < |Kids(u)| && Kids(u)[i] == c
  }

  /** Every subterm of an abstraction is the abstraction of a subterm. */
  lemma {:induction false} AbstractSubterm(t: Term, s: map<Term, nat>, u: Term) returns (v: Term)
    requires u in Subterms(Abstract(t, s))
    ensures v in Subterms(t) && u == Abstract(v, s)
    decreases t, 1
  {
    v := t;
    if u != Abstract(t, s) {
      match t
      case App(_, args) => v := AbstractAllSubterm(args, s, u);
      case Op(_, args) => v := AbstractAllSubterm(args, s, u);
      case _ =>
    }
  }

  lemma {:induction false} AbstractAllSubterm(ts: seq<Term>, s: map<Term, nat>, u: Term) returns (v: Term)
    requires u in SubtermsAll(AbstractAll(ts, s))
    ensures v in SubtermsAll(ts) && u == Abstract(v, s)
    decreases ts, 0
  {
    if u in Subterms(Abstract(ts[0], s)) {
      v := AbstractSubterm(ts[0], s, u);
    } else {
      v := AbstractAllSubterm(ts[1..], s, u);
    }
  }

  lemma NothingLeft(formulas: seq<Term>, f2t: Groups, s2t: Groups, info: Info, base: nat)
    requires Collected(SubtermsAll(formulas), f2t, s2t) && AllChosen(info.t2c, f2t, s2t) && Bijection(info, base)
    ensures Eliminated(formulas, AbstractAll(formulas, info.t2c), base)
  {
    var S, s := SubtermsAll(formulas), info.t2c;
    forall t | t in SubtermsAll(AbstractAll(formulas, s)) && t.App? && |t.args| > 0 ensures AsArray(t.f) in S {
      var v := AbstractAllSubterm(formulas, s, t);
      assert KeyOf(v) == FunKey(t.f) && !Chosen(f2t, s2t, v);
      assert v in GroupOf(S, FunKey(t.f)).constArgs + GroupOf(S, FunKey(t.f)).varArgs;
    }
    forall t | t in SubtermsAll(AbstractAll(formulas, s)) && SelectsFrom(t, base)
      ensures UsedElsewhere(SubtermsAll(formulas), t.args[0])
    {
      var v := AbstractAllSubterm(formulas, s, t);
      SelectLeft(formulas, f2t, s2t, info, base, t, v);
    }
  }

  lemma SelectLeft(formulas: seq<Term>, f2t: Groups, s2t: Groups, info: Info, base: nat, t: Term, v: Term)
    requires Collected(SubtermsAll(formulas), f2t, s2t) && AllChosen(info.t2c, f2t, s2t) && Bijection(info, base)
    requires v in SubtermsAll(formulas) && t == Abstract(v, info.t2c) && SelectsFrom(t, base)
    ensures UsedElsewhere(SubtermsAll(formulas), t.args[0])
  {
    var S, a := SubtermsAll(formulas), t.args[0];
    assert v !in info.t2c && a == Abstract(v.args[0], info.t2c);
    assert v.args[0] !in info.t2c;
    assert KeyOf(v) == ArrayKey(a.c) && !Chosen(f2t, s2t, v);
    assert v in GroupOf(S, ArrayKey(a.c)).constArgs + GroupOf(S, ArrayKey(a.c)).varArgs;
    NonSelectsElsewhere(S, a);
  }

  predicate Applies(t: Term, f: nat) {
    t.App? && t.f == f && |t.args| > 0
  }

  predicate Reads(t: Term, c: nat) {
    t.Op? && t.o == Select && |t.args| > 0 && t.args[0] == Const(c)
  }

  predicate LiteralsFrom(args: seq<Term>, n: nat) {
    forall i | n <= i < |args| :: args[i].Val?
  }

  /** What the tables hold, told by the terms alone. */
  ghost predicate FunsListed(S: set<Term>, f2t: Groups) {
    && (forall f :: f in f2t <==> AsArray(f) !in S && exists t :: t in S && Applies(t, f))
    && (forall f, t | f in f2t :: t in f2t[f].constArgs <==> t in S && Applies(t, f) && LiteralsFrom(t.args, 0))
    && (forall f, t | f in f2t :: t in f2t[f].varArgs <==> t in S && Applies(t, f) && !LiteralsFrom(t.args, 0))
  }

  ghost predicate ArraysListed(S: set<Term>, s2t: Groups) {
    && (forall c :: c in s2t <==> !UsedElsewhere(S, Const(c)) && exists t :: t in S && Reads(t, c))
    && (forall c, t | c in s2t :: t in s2t[c].constArgs <==> t in S && Reads(t, c) && LiteralsFrom(t.args, 1))
    && (forall c, t | c in s2t :: t in s2t[c].varArgs <==> t in S && Reads(t, c) && !LiteralsFrom(t.args, 1))
  }

  lemma PrunedCollected(S: set<Term>, f2t: Groups, s2t: Groups, nonSelect: set<Term>, nonFuns: set<nat>)
    requires Grouped(S, f2t, true) && Grouped(S, s2t, false)
    requires nonSelect == NonSelects(S) && forall f :: f in nonFuns <==> AsArray(f) in S
    ensures var f2t' := f2t - set f | f in f2t && f in nonFuns;
            var s2t' := s2t - set c | c in s2t && Const(c) in nonSelect;
            Collected(S, f2t', s2t') == true && Listed(S, f2t', s2t') == true
  {
    var f2t' := f2t - set f | f in f2t && f in nonFuns;
    var s2t' := s2t - set c | c in s2t && Const(c) in nonSelect;
    assert Collected(S, f2t', s2t');
    CollectedTerms(S, f2t', s2t');
  }

  ghost predicate Listed(S: set<Term>, f2t: Groups, s2t: Groups) {
    FunsListed(S, f2t) && ArraysListed(S, s2t)
  }

  lemma CollectedTerms(S: set<Term>, f2t: Groups, s2t: Groups)
    requires Collected(S, f2t, s2t)
    ensures Listed(S, f2t, s2t)
  {
    forall f ensures GroupOf(S, FunKey(f)) != NO_APPS <==> exists t :: t in S && Applies(t, f) { FunGroup(S, f); }
    forall f, t | f in f2t
      ensures t in f2t[f].constArgs <==> t in S && Applies(t, f) && LiteralsFrom(t.args, 0)
      ensures t in f2t[f].varArgs <==> t in S && Applies(t, f) && !LiteralsFrom(t.args, 0)
    {
      FunGroup(S, f);
    }
    forall c ensures GroupOf(S, ArrayKey(c)) != NO_APPS <==> exists t :: t in S && Reads(t, c) { ArrayGroup(S, c); }
    forall c, t | c in s2t
      ensures t in s2t[c].constArgs <==> t in S && Reads(t, c) && LiteralsFrom(t.args, 1)
      ensures t in s2t[c].varArgs <==> t in S && Reads(t, c) && !LiteralsFrom(t.args, 1)
    {
      ArrayGroup(S, c);
    }
    forall c ensures Const(c) in NonSelects(S) <==> UsedElsewhere(S, Const(c)) { NonSelectsElsewhere(S, Const(c)); }
  }

  lemma FunGroup(S: set<Term>, f: nat)
    ensures forall t :: t in GroupOf(S, FunKey(f)).constArgs <==> t in S && Applies(t, f) && LiteralsFrom(t.args, 0)
    ensures forall t :: t in GroupOf(S, FunKey(f)).varArgs <==> t in S && Applies(t, f) && !LiteralsFrom(t.args, 0)
    ensures GroupOf(S, FunKey(f)) != NO_APPS <==> exists t :: t in S && Applies(t, f)
  {
    forall t ensures KeyOf(t) == FunKey(f) <==> Applies(t, f) {}
    forall t | Applies(t, f) ensures LiteralArgs(t) <==> LiteralsFrom(t.args, 0) {
      assert KeyOf(t) == FunKey(f) && Kids(t) == t.args;
    }
    if t :| t in S && Applies(t, f) { assert t in GroupOf(S, FunKey(f)).constArgs + GroupOf(S, FunKey(f)).varArgs; }
  }

  lemma ArrayGroup(S: set<Term>, c: nat)
    ensures forall t :: t in GroupOf(S, ArrayKey(c)).constArgs <==> t in S && Reads(t, c) && LiteralsFrom(t.args, 1)
    ensures forall t :: t in GroupOf(S, ArrayKey(c)).varArgs <==> t in S && Reads(t, c) && !LiteralsFrom(t.args, 1)
    ensures GroupOf(S, ArrayKey(c)) != NO_APPS <==> exists t :: t in S && Reads(t, c)
  {
    forall t ensures KeyOf(t) == ArrayKey(c) <==> Reads(t, c) {}
    forall t | Reads(t, c) ensures LiteralArgs(t) <==> LiteralsFrom(t.args, 1) {
      assert KeyOf(t) == ArrayKey(c) && Kids(t) == t.args;
    }
    if t :| t in S && Reads(t, c) { assert t in GroupOf(S, ArrayKey(c)).constArgs + GroupOf(S, ArrayKey(c)).varArgs; }
  }

  lemma NonSelectArgsMeaning(a: Term)
    ensures forall k :: k in NonSelectArgs(a) <==>
              exists i :: ArgumentAt(a, i, k) && !(a.Op? && a.o == Select && i == 0)
  {
    var from := if a.Op? && a.o == Select then 1 else 0;
    forall k | k in NonSelectArgs(a) ensures exists i :: ArgumentAt(a, i, k) && !(a.Op? && a.o == Select && i == 0) {
      var i :| from <= i < |Kids(a)| && Kids(a)[i] == k;
      assert ArgumentAt(a, i, k);
    }
  }

  lemma NonSelectsElsewhere(S: set<Term>, c: Term)
    ensures c in NonSelects(S) <==> UsedElsewhere(S, c)
  {
    if c in NonSelects(S) {
      var u :| u in S && c in NonSelectArgs(u);
      NonSelectArgsMeaning(u);
    }
    if UsedElsewhere(S, c) {
      var u, i :| u in S && ArgumentAt(u, i, c) && !(u.Op? && u.o == Select && i == 0);
      assert c in NonSelectArgs(u);
    }
  }

  /** Abstracting the chosen terms meets what soundness needs. */
  lemma ChosenSeparated(S: set<Term>, f2t: Groups, s2t: Groups, s: map<Term, nat>)
    requires Closed(S) && Collected(S, f2t, s2t) && AllChosen(s, f2t, s2t)
    ensures Separated(S, s)
  {
    forall t | t in s ensures t in S && KeyOf(t) != NoKey {
      assert Chosen(f2t, s2t, t);
    }
    forall t, i | t in S && 0 <= i < |Kids(t)| && Kids(t)[i].Const? && Active(s, ArrayKey(Kids(t)[i].c))
      ensures t in s && i == 0 && KeyOf(t) == ArrayKey(Kids(t)[i].c)
    {
      var c := Kids(t)[i].c;
      var u :| u in s && KeyOf(u) == ArrayKey(c);
      assert Chosen(f2t, s2t, u);
      assert Const(c) !in NonSelects(S);
      assert Kids(t)[i] in NonSelectArgs(t) || (t.Op? && t.o == Select && i == 0);
      assert Chosen(f2t, s2t, t);
    }
    forall t | t in S && KeyOf(t).FunKey? && Active(s, KeyOf(t)) ensures t in s {
      var u :| u in s && KeyOf(u) == KeyOf(t);
      assert Chosen(f2t, s2t, u);
      assert Chosen(f2t, s2t, t);
    }
    forall f | AsArray(f) in S ensures !Active(s, FunKey(f)) {
      forall u | u in s ensures KeyOf(u) != FunKey(f) { assert Chosen(f2t, s2t, u); }
    }
  }

  // ---------------------------------------------------------------- the lemmas

  type Simplifier = Term -> Term

  ghost predicate Preserving(th: Theory, simp: Simplifier) {
    forall t, m :: Holds(th, simp(t), m) <==> Holds(th, t, m)
  }

  /** In every model of the lemmas the two terms are congruent. */
  ghost predicate Covered(th: Theory, s: map<Term, nat>, ackrs: seq<Term>, t1: Term, t2: Term) {
    && t1 in s && t2 in s
    && forall m {:trigger AllHold(th, ackrs, m)} | AllHold(th, ackrs, m) :: Congruent(th, s, m, t1, t2)
  }

  /** Every lemma holds wherever abstracted terms are congruent. */
  ghost predicate LemmasValid(th: Theory, s: map<Term, nat>, ackrs: seq<Term>) {
    forall m {:trigger AllHold(th, ackrs, m)} | AllCongruent(th, s, m) :: AllHold(th, ackrs, m)
  }

  lemma CoveredMore(th: Theory, s: map<Term, nat>, ackrs: seq<Term>, more: seq<Term>, t1: Term, t2: Term)
    requires Covered(th, s, ackrs, t1, t2) && ackrs <= more
    ensures Covered(th, s, more, t1, t2)
  {
    forall m {:trigger AllHold(th, more, m)} | AllHold(th, more, m) ensures Congruent(th, s, m, t1, t2) {
      assert AllHold(th, ackrs, m) by { assert forall t | t in ackrs :: t in more; }
    }
  }

  ghost predicate Paired(s: map<Term, nat>, t1: Term, t2: Term) {
    && t1 in s && t2 in s && KeyOf(t1) == KeyOf(t2) && |Kids(t1)| == |Kids(t2)|
    && forall t | t in s :: KeyOf(t) != NoKey
  }

  /** What is added for a pair: nothing, or its simplified lemma. */
  function PairLemmas(s: map<Term, nat>, simp: Simplifier, t1: Term, t2: Term): (ls: seq<Term>)
    requires t1 in s && t2 in s && |Kids(t1)| == |Kids(t2)|
    ensures |ls| <= 1
  {
    var cga := simp(AckLemma(t1, t2, s));
    if SomeDistinct(Kids(t1), Kids(t2)) || cga == Val(TRUE) then [] else [cga]
  }

  lemma PairCovered(th: Theory, s: map<Term, nat>, simp: Simplifier, ackrs: seq<Term>, t1: Term, t2: Term)
    requires Paired(s, t1, t2) && Preserving(th, simp)
    ensures Covered(th, s, ackrs + PairLemmas(s, simp, t1, t2), t1, t2)
    ensures LemmasValid(th, s, ackrs) ==> LemmasValid(th, s, ackrs + PairLemmas(s, simp, t1, t2))
  {
    var ls, cga := PairLemmas(s, simp, t1, t2), simp(AckLemma(t1, t2, s));
    var more := ackrs + ls;
    forall m {:trigger AllHold(th, more, m)} | AllHold(th, more, m) ensures Congruent(th, s, m, t1, t2) {
      if SomeDistinct(Kids(t1), Kids(t2)) {
        DistinctArguments(th, s, m, t1, t2);
      } else {
        assert Holds(th, cga, m) by { if cga != Val(TRUE) { assert cga in more; } }
        AckLemmaMeaning(th, s, m, t1, t2);
      }
    }
    if LemmasValid(th, s, ackrs) {
      forall m {:trigger AllHold(th, more, m)} | AllCongruent(th, s, m) ensures AllHold(th, more, m) {
        assert AllHold(th, ackrs, m);
        assert Congruent(th, s, m, t1, t2);
        AckLemmaMeaning(th, s, m, t1, t2);
        assert Holds(th, cga, m);
      }
    }
  }

  /** Every pair of one group that may need a lemma is covered. */
  ghost predicate GroupCovered(th: Theory, s: map<Term, nat>, ackrs: seq<Term>, ts: AppSet) {
    forall t1, t2 | t1 in ts.varArgs && t2 in ts.varArgs + ts.constArgs && t1 != t2 ::
      Covered(th, s, ackrs, t1, t2) || Covered(th, s, ackrs, t2, t1)
  }

  ghost predicate AllGroupsCovered(th: Theory, s: map<Term, nat>, ackrs: seq<Term>, groups: Groups) {
    forall n | n in groups :: GroupCovered(th, s, ackrs, groups[n])
  }

  lemma GroupCoveredMore(th: Theory, s: map<Term, nat>, ackrs: seq<Term>, more: seq<Term>, ts: AppSet)
    requires GroupCovered(th, s, ackrs, ts) && ackrs <= more
    ensures GroupCovered(th, s, more, ts)
  {
    forall t1, t2 | t1 in ts.varArgs && t2 in ts.varArgs + ts.constArgs && t1 != t2
      ensures Covered(th, s, more, t1, t2) || Covered(th, s, more, t2, t1)
    {
      if Covered(th, s, ackrs, t1, t2) { CoveredMore(th, s, ackrs, more, t1, t2); }
      else { CoveredMore(th, s, ackrs, more, t2, t1); }
    }
  }

  lemma AllGroupsCoveredMore(th: Theory, s: map<Term, nat>, ackrs: seq<Term>, more: seq<Term>, groups: Groups)
    requires AllGroupsCovered(th, s, ackrs, groups) == true && ackrs <= more
    ensures AllGroupsCovered(th, s, more, groups)
  {
    forall n | n in groups ensures GroupCovered(th, s, more, groups[n]) {
      GroupCoveredMore(th, s, ackrs, more, groups[n]);
    }
  }

  /** With all groups covered, models of the lemmas are congruent throughout. */
  lemma CoveredCongruent(th: Theory, S: set<Term>, f2t: Groups, s2t: Groups, s: map<Term, nat>, ackrs: seq<Term>,
                         m: Model)
    requires Collected(S, f2t, s2t) && AllChosen(s, f2t, s2t)
    requires AllGroupsCovered(th, s, ackrs, f2t) && AllGroupsCovered(th, s, ackrs, s2t)
    requires AllHold(th, ackrs, m) && SameArity(S)
    ensures AllCongruent(th, s, m)
  {
    forall t1, t2 | t1 in s && t2 in s && KeyOf(t1) == KeyOf(t2) ensures Congruent(th, s, m, t1, t2) {
      assert Chosen(f2t, s2t, t1) && Chosen(f2t, s2t, t2);
      var ts := if KeyOf(t1).FunKey? then f2t[KeyOf(t1).f] else s2t[KeyOf(t1).c];
      assert GroupCovered(th, s, ackrs, ts);
      assert forall t | t in s :: Chosen(f2t, s2t, t) && KeyOf(t) != NoKey;
      if t1 == t2 {
      } else if t1 in ts.varArgs {
        assert Covered(th, s, ackrs, t1, t2) || Covered(th, s, ackrs, t2, t1);
      } else if t2 in ts.varArgs {
        assert Covered(th, s, ackrs, t2, t1) || Covered(th, s, ackrs, t1, t2);
      } else {
        LiteralsCongruent(th, s, m, t1, t2);
      }
    }
  }

  ghost predicate SameArity(S: set<Term>) {
    forall t1, t2 | t1 in S && t2 in S && KeyOf(t1) == KeyOf(t2) != NoKey :: |Kids(t1)| == |Kids(t2)|
  }

  // ---------------------------------------------------------------- ackr_info

  class AckrInfo {
    var t2c: map<Term, nat>
    var c2t: map<nat, Term>
    var isSealed: bool

    constructor ()
      ensures t2c == map[] && c2t == map[] && !isSealed
    {
      t2c, c2t, isSealed := map[], map[], false;
    }

    function View(): Info
      reads this
    {
      Info(t2c, c2t)
    }

    method SetAbstr(term: Term, c: nat)
      requires !isSealed
      modifies this
      ensures t2c == old(t2c)[term := c] && c2t == old(c2t)[c := term] && !isSealed
    {
      t2c := t2c[term := c];
      c2t := c2t[c := term];
    }

    method Seal()
      modifies this`isSealed
      ensures isSealed
    {
      isSealed := true;
    }

    /** The substitution may be applied once all terms are known. */
    function AbstractTerm(e: Term): Term
      requires isSealed
      reads this
    {
      Abstract(e, t2c)
    }

    function FindTerm(c: nat): (t: Term)
      requires c in c2t
      reads this
      ensures Bijection(View(), 0) ==> t in t2c && t2c[t] == c
    {
      c2t[c]
    }

    function GetAbstr(t: Term): (c: nat)
      requires t in t2c
      reads this
      ensures Bijection(View(), 0) ==> c in c2t && c2t[c] == t
    {
      t2c[t]
    }
  }

  // ---------------------------------------------------------------- equisatisfiability

  ghost predicate Satisfiable(th: Theory, fs: seq<Term>) {
    exists m :: AllHold(th, fs, m)
  }

  /** What the reduction has fixed: the substitution, for formulas it separates well. */
  ghost predicate Reduction(formulas: seq<Term>, info: Info, lo: nat) {
    && AllBelow(formulas, lo) && WellFormed(formulas) && Bijection(info, lo)
    && Separated(SubtermsAll(formulas), info.t2c)
  }

  lemma ReducedTermsBelow(formulas: seq<Term>, info: Info, lo: nat)
    requires Reduction(formulas, info, lo)
    ensures forall t | t in info.t2c :: Below(t, lo)
  {
    SubtermsAllBelow(formulas, lo);
  }

  /** A congruent model of the abstracted formulas yields one of the original. */
  lemma ReducedToOriginal(th: Theory, formulas: seq<Term>, info: Info, lo: nat, m: Model)
    requires Arrays(th) && Reduction(formulas, info, lo)
    requires AllHold(th, AbstractAll(formulas, info.t2c), m) && AllCongruent(th, info.t2c, m)
    ensures Satisfiable(th, formulas)
  {
    var m' := Completed(info, m);
    forall t ensures Eval(th, t, m') == Eval(th, t, m) { EvalSame(th, t, m', m); }
    forall t1, t2 | t1 in info.t2c && t2 in info.t2c && KeyOf(t1) == KeyOf(t2)
      ensures Congruent(th, info.t2c, m', t1, t2)
    {
      assert Congruent(th, info.t2c, m, t1, t2);
      assert ArgValues(th, info.t2c, m', t1) == ArgValues(th, info.t2c, m, t1);
      assert ArgValues(th, info.t2c, m', t2) == ArgValues(th, info.t2c, m, t2);
    }
    var orig := ConversionExists(th, info, m');
    BackwardSound(th, info, lo, formulas, m', orig);
  }

  /** The reduction is equisatisfiable once lemmas force congruence and nothing more. */
  lemma Equisatisfiable(th: Theory, formulas: seq<Term>, info: Info, lo: nat, ackrs: seq<Term>)
    requires Arrays(th) && Reduction(formulas, info, lo) && LemmasValid(th, info.t2c, ackrs)
    requires forall m {:trigger AllHold(th, ackrs, m)} | AllHold(th, ackrs, m) :: AllCongruent(th, info.t2c, m)
    ensures Satisfiable(th, formulas) <==> Satisfiable(th, AbstractAll(formulas, info.t2c) + ackrs)
  {
    if Satisfiable(th, formulas) {
      OriginalToReduced(th, formulas, info, lo, ackrs);
    }
    if Satisfiable(th, AbstractAll(formulas, info.t2c) + ackrs) {
      var as_ := AbstractAll(formulas, info.t2c);
      var m :| AllHold(th, as_ + ackrs, m);
      AllHoldConcat(th, as_, ackrs, m);
      ReducedToOriginal(th, formulas, info, lo, m);
    }
  }

  lemma OriginalToReduced(th: Theory, formulas: seq<Term>, info: Info, lo: nat, ackrs: seq<Term>)
    requires Reduction(formulas, info, lo) && LemmasValid(th, info.t2c, ackrs) && Satisfiable(th, formulas)
    ensures Satisfiable(th, AbstractAll(formulas, info.t2c) + ackrs)
  {
    var m :| AllHold(th, formulas, m);
    ReducedTermsBelow(formulas, info, lo);
    ForwardSound(th, info, lo, formulas, m);
    assert AllHold(th, ackrs, Extended(th, info, m));
    AllHoldConcat(th, AbstractAll(formulas, info.t2c), ackrs, Extended(th, info, m));
  }

  lemma AllHoldConcat(th: Theory, fs: seq<Term>, gs: seq<Term>, m: Model)
    ensures AllHold(th, fs + gs, m) <==> AllHold(th, fs, m) && AllHold(th, gs, m)
  {}

  lemma AndHolds(th: Theory, ts: seq<Term>, m: Model)
    ensures Holds(th, Op(And, ts), m) <==> AllHold(th, ts, m)
  {
    var vs := EvalAll(th, ts, m);
    if AllTrue(vs) {
      forall t | t in ts ensures Holds(th, t, m) {
        var i :| 0 <= i < |ts| && ts[i] == t;
        assert vs[i] == TRUE;
      }
    }
    if AllHold(th, ts, m) {
      forall i | 0 <= i < |vs| ensures vs[i] == TRUE { assert ts[i] in ts; }
    }
  }

  // ---------------------------------------------------------------- the engine

  datatype Answer = Sat(m: Model) | Unsat

  type Oracle = (nat, seq<Term>) -> Answer

  ghost predicate SoundOracle(th: Theory, o: Oracle) {
    forall n: nat, fs: seq<Term> ::
      match o(n, fs)
      case Sat(m) => AllHold(th, fs, m)
      case Unsat => !Satisfiable(th, fs)
  }

  /** The solver for formulas without the abstracted applications. */
  class UfFreeSolver {
    const oracle: Oracle
    var asserted: seq<Term>
    var calls: nat

    constructor (oracle: Oracle)
      ensures this.oracle == oracle && asserted == []
    {
      this.oracle, asserted, calls := oracle, [], 0;
    }

    method AssertExpr(e: Term)
      modifies this`asserted
      ensures asserted == old(asserted) + [e]
    {
      asserted := asserted + [e];
    }

    method CheckSat() returns (ans: Answer)
      modifies this`calls
      ensures ans == oracle(old(calls), asserted) && calls == old(calls) + 1
    {
      ans := oracle(calls, asserted);
      calls := calls + 1;
    }
  }

  /** What a model check reports: no conflict, or pairs of terms among which one is not
      congruent. */
  datatype Verdict = Fine | Conflicts(pairs: seq<(Term, Term)>)

  type Checker = (nat, Info, Model) -> Verdict

  ghost predicate CheckOk(th: Theory, s: map<Term, nat>, m: Model, v: Verdict) {
    match v
    case Fine => AllCongruent(th, s, m)
    case Conflicts(pairs) => AllPairs(s, pairs) && exists p :: p in pairs && !Congruent(th, s, m, p.0, p.1)
  }

  ghost predicate AllPairs(s: map<Term, nat>, pairs: seq<(Term, Term)>) {
    forall p | p in pairs :: Paired(s, p.0, p.1)
  }

  ghost predicate SoundChecker(th: Theory, check: Checker) {
    forall n: nat, info: Info, m | Candidates(info.t2c) :: CheckOk(th, info.t2c, m, check(n, info, m))
  }

  // ---------------------------------------------------------------- refinement on demand

  /** The unordered pairs that may ever need a lemma. */
  ghost function LemmaPairs(s: map<Term, nat>): set<set<Term>> {
    set t1, t2 | t1 in s && t2 in s && NeedsLemma(t1, t2) :: {t1, t2}
  }

  ghost predicate NeedsLemma(t1: Term, t2: Term) {
    t1 != t2 && KeyOf(t1) == KeyOf(t2) && |Kids(t1)| == |Kids(t2)| && !SomeDistinct(Kids(t1), Kids(t2))
  }

  ghost predicate PairDone(th: Theory, s: map<Term, nat>, ackrs: seq<Term>, p: set<Term>) {
    exists t1, t2 :: p == {t1, t2} && Covered(th, s, ackrs, t1, t2)
  }

  ghost predicate PairsDone(th: Theory, s: map<Term, nat>, ackrs: seq<Term>, done: set<set<Term>>) {
    done <= LemmaPairs(s) && forall p | p in done :: PairDone(th, s, ackrs, p)
  }

  /** A pair that violates congruence in a model of the lemmas is a new one, and needs a
      lemma. */
  lemma ViolatedPairIsNew(th: Theory, s: map<Term, nat>, ackrs: seq<Term>, done: set<set<Term>>, m: Model, t1: Term,
                          t2: Term)
    requires PairsDone(th, s, ackrs, done) && AllHold(th, ackrs, m)
    requires Paired(s, t1, t2) && !Congruent(th, s, m, t1, t2)
    ensures {t1, t2} in LemmaPairs(s) - done
  {
    SettledCongruent(th, s, ackrs, done, m, t1, t2);
    assert NeedsLemma(t1, t2) ==> {t1, t2} in LemmaPairs(s);
  }

  lemma SettledCongruent(th: Theory, s: map<Term, nat>, ackrs: seq<Term>, done: set<set<Term>>, m: Model, t1: Term,
                         t2: Term)
    requires PairsDone(th, s, ackrs, done) && AllHold(th, ackrs, m) && Paired(s, t1, t2)
    ensures {t1, t2} in done ==> Congruent(th, s, m, t1, t2)
    ensures !NeedsLemma(t1, t2) ==> Congruent(th, s, m, t1, t2)
  {
    if SomeDistinct(Kids(t1), Kids(t2)) { DistinctArguments(th, s, m, t1, t2); }
    if {t1, t2} in done {
      var u1, u2 :| {t1, t2} == {u1, u2} && Covered(th, s, ackrs, u1, u2);
      assert Congruent(th, s, m, u1, u2);
      assert u1 in {t1, t2} && u2 in {t1, t2} && t1 in {u1, u2} && t2 in {u1, u2};
    }
  }

  /** The round's lemmas settle the violated pair for good. */
  lemma PairSettled(th: Theory, s: map<Term, nat>, ackrs: seq<Term>, more: seq<Term>, done: set<set<Term>>, m: Model,
                    t1: Term, t2: Term)
    requires PairsDone(th, s, ackrs, done) && AllHold(th, ackrs, m) && ackrs <= more
    requires Paired(s, t1, t2) && !Congruent(th, s, m, t1, t2) && Covered(th, s, more, t1, t2)
    ensures PairsDone(th, s, more, done + {{t1, t2}})
    ensures |LemmaPairs(s) - (done + {{t1, t2}})| < |LemmaPairs(s) - done|
    ensures |done + {{t1, t2}}| == |done| + 1
  {
    ViolatedPairIsNew(th, s, ackrs, done, m, t1, t2);
    var P := LemmaPairs(s);
    assert P - (done + {{t1, t2}}) == P - done - {{t1, t2}};
    forall p | p in done + {{t1, t2}} ensures PairDone(th, s, more, p) {
      if p in done {
        var u1, u2 :| p == {u1, u2} && Covered(th, s, ackrs, u1, u2);
        CoveredMore(th, s, ackrs, more, u1, u2);
      }
    }
  }

  /** Between two lazy rounds: the lemmas are valid and have settled one pair a round. */
  ghost predicate Settling(th: Theory, s: map<Term, nat>, ackrs: seq<Term>, rounds: nat) {
    LemmasValid(th, s, ackrs) && exists done :: PairsDone(th, s, ackrs, done) && |done| == rounds
  }

  ghost predicate PairsCovered(th: Theory, s: map<Term, nat>, ackrs: seq<Term>, pairs: seq<(Term, Term)>, n: nat) {
    forall i | 0 <= i < n && i < |pairs| :: Covered(th, s, ackrs, pairs[i].0, pairs[i].1)
  }

  lemma PairsCoveredMore(th: Theory, s: map<Term, nat>, ackrs: seq<Term>, more: seq<Term>, pairs: seq<(Term, Term)>,
                         n: nat)
    requires n < |pairs| && PairsCovered(th, s, ackrs, pairs, n) && ackrs <= more
    requires Covered(th, s, more, pairs[n].0, pairs[n].1)
    ensures PairsCovered(th, s, more, pairs, n + 1)
  {
    forall i | 0 <= i < n ensures Covered(th, s, more, pairs[i].0, pairs[i].1) {
      CoveredMore(th, s, ackrs, more, pairs[i].0, pairs[i].1);
    }
  }

  /** A round settles one more pair, and its lemmas fail in the model that was refused. */
  lemma RoundProgress(th: Theory, s: map<Term, nat>, ackrs: seq<Term>, more: seq<Term>, pairs: seq<(Term, Term)>,
                      rounds: nat, m: Model)
    requires Settling(th, s, ackrs, rounds) && AllHold(th, ackrs, m) && ackrs <= more && LemmasValid(th, s, more)
    requires CheckOk(th, s, m, Conflicts(pairs)) && PairsCovered(th, s, more, pairs, |pairs|)
    ensures Settling(th, s, more, rounds + 1) && !AllHold(th, more, m)
  {
    var done :| PairsDone(th, s, ackrs, done) && |done| == rounds;
    var p :| p in pairs && !Congruent(th, s, m, p.0, p.1);
    var i :| 0 <= i < |pairs| && pairs[i] == p;
    assert Covered(th, s, more, pairs[i].0, pairs[i].1);
    PairSettled(th, s, ackrs, more, done, m, p.0, p.1);
  }

  /** One lemma for all. */
  lemma ConjunctionSatisfiable(th: Theory, simp: Simplifier, fs: seq<Term>, ackrs: seq<Term>)
    requires Preserving(th, simp)
    ensures Satisfiable(th, fs + [simp(Op(And, ackrs))]) <==> Satisfiable(th, fs + ackrs)
  {
    var all := simp(Op(And, ackrs));
    forall m ensures AllHold(th, fs + [all], m) <==> AllHold(th, fs + ackrs, m) {
      AllHoldConcat(th, fs, ackrs, m);
      AllHoldConcat(th, fs, [all], m);
      AndHolds(th, ackrs, m);
      assert all in [all];
    }
  }

  /** The abstraction alone is a relaxation. */
  lemma AbstractionRelaxes(th: Theory, formulas: seq<Term>, info: Info, lo: nat)
    requires Reduction(formulas, info, lo)
    ensures Satisfiable(th, formulas) ==> Satisfiable(th, AbstractAll(formulas, info.t2c))
  {
    if Satisfiable(th, formulas) {
      OriginalToReduced(th, formulas, info, lo, []);
      assert AbstractAll(formulas, info.t2c) + [] == AbstractAll(formulas, info.t2c);
    }
  }

  lemma RoundsBounded(th: Theory, s: map<Term, nat>, ackrs: seq<Term>, rounds: nat)
    requires Settling(th, s, ackrs, rounds)
    ensures rounds <= |LemmaPairs(s)|
  {
    var done :| PairsDone(th, s, ackrs, done) && |done| == rounds;
    SubsetSize(done, LemmaPairs(s));
  }

  lemma NothingSettled(th: Theory, s: map<Term, nat>)
    ensures Settling(th, s, [], 0)
  {
    assert PairsDone(th, s, [], {});
  }

  /** Valid lemmas keep the abstraction a relaxation. */
  lemma LemmasRelax(th: Theory, formulas: seq<Term>, info: Info, lo: nat, ackrs: seq<Term>)
    requires Reduction(formulas, info, lo) == true && LemmasValid(th, info.t2c, ackrs) == true
    ensures Satisfiable(th, formulas) ==> Satisfiable(th, AbstractAll(formulas, info.t2c) + ackrs)
  {
    if Satisfiable(th, formulas) { OriginalToReduced(th, formulas, info, lo, ackrs); }
  }

  /** An accepted model of the abstraction yields one of the formulas. */
  lemma ModelChecked(th: Theory, formulas: seq<Term>, info: Info, lo: nat, ackrs: seq<Term>, m: Model, v: Verdict)
    requires Arrays(th) && Reduction(formulas, info, lo) == true && CheckOk(th, info.t2c, m, v) == true
    requires AllHold(th, AbstractAll(formulas, info.t2c) + ackrs, m)
    ensures AllHold(th, ackrs, m) == true
    ensures v.Fine? ==> Satisfiable(th, formulas) == true
  {
    AllHoldConcat(th, AbstractAll(formulas, info.t2c), ackrs, m);
    if v.Fine? { ReducedToOriginal(th, formulas, info, lo, m); }
  }

  class Lackr {
    const th: Theory
    const formulas: seq<Term>
    const simp: Simplifier
    const info: AckrInfo
    /** Constants from here on occur in no formula. */
    const base: nat
    var next: nat
    var fun2terms: Groups
    var sel2terms: Groups
    var abstr: seq<Term>
    var ackrs: seq<Term>
    var nonSelect: set<Term>
    var nonFuns: set<nat>

    ghost predicate InputOk()
      reads this`next
    {
      && AllBelow(formulas, base) && base <= next && WellFormed(formulas)
      && Preserving(th, simp) && Arrays(th)
    }

    constructor (th: Theory, formulas: seq<Term>, simp: Simplifier, base: nat)
      requires AllBelow(formulas, base) && WellFormed(formulas) && Preserving(th, simp) && Arrays(th)
      ensures this.th == th && this.formulas == formulas && this.simp == simp && this.base == base
      ensures InputOk() && fresh(info) && !info.isSealed && info.t2c == map[] && info.c2t == map[]
      ensures fun2terms == map[] && sel2terms == map[] && abstr == [] && ackrs == [] && nonSelect == {} && nonFuns == {}
    {
      this.th, this.formulas, this.simp, this.base, next := th, formulas, simp, base, base;
      info := new AckrInfo();
      fun2terms, sel2terms, abstr, ackrs, nonSelect, nonFuns := map[], map[], [], [], {}, {};
    }

    /** Classifies one term as a function or select occurrence. */
    method Insert(a: Term)
      modifies this`fun2terms, this`sel2terms
      ensures fun2terms == if KeyOf(a).FunKey? then Inserted(old(fun2terms), KeyOf(a).f, a) else old(fun2terms)
      ensures sel2terms == if KeyOf(a).ArrayKey? then Inserted(old(sel2terms), KeyOf(a).c, a) else old(sel2terms)
    {
      if |Kids(a)| == 0 {
        return;
      }
      var isConstArgs := true;
      var i := 0;
      if KeyOf(a).ArrayKey? {
        i := 1;
      } else if !KeyOf(a).FunKey? {
        return;
      }
      ghost var from := i;
      while isConstArgs && i < |Kids(a)|
        invariant from <= i <= |Kids(a)|
        invariant isConstArgs <==> forall j | from <= j < i :: Kids(a)[j].Val?
        decreases |Kids(a)| - i + if isConstArgs then 1 else 0
      {
        isConstArgs := Kids(a)[i].Val?;
        i := i + 1;
      }
      assert isConstArgs == LiteralArgs(a);
      if KeyOf(a).ArrayKey? {
        var c := KeyOf(a).c;
        var ts := if c in sel2terms then sel2terms[c] else NO_APPS;
        sel2terms := sel2terms[c := if isConstArgs then ts.(constArgs := ts.constArgs + {a})
                                    else ts.(varArgs := ts.varArgs + {a})];
      } else {
        var f := KeyOf(a).f;
        var ts := if f in fun2terms then fun2terms[f] else NO_APPS;
        fun2terms := fun2terms[f := if isConstArgs then ts.(constArgs := ts.constArgs + {a})
                                    else ts.(varArgs := ts.varArgs + {a})];
      }
    }

    method MarkNonSelect(a: Term)
      modifies this`nonSelect
      ensures nonSelect == old(nonSelect) + NonSelectArgs(a)
      ensures forall k :: k in nonSelect <==>
                k in old(nonSelect) || exists i :: ArgumentAt(a, i, k) && !(a.Op? && a.o == Select && i == 0)
    {
      var first := a.Op? && a.o == Select;
      ghost var from := if first then 1 else 0;
      for i := 0 to |Kids(a)|
        invariant nonSelect == old(nonSelect) + set j | from <= j < i :: Kids(a)[j]
        invariant first <==> from > i
      {
        if first {
          first := false;
        } else {
          nonSelect := nonSelect + {Kids(a)[i]};
        }
      }
      NonSelectArgsMeaning(a);
    }

    /** The arguments not visited yet, on top of the stack. */
    method PushArgs(stack: seq<Term>, visited: set<Term>, args: seq<Term>) returns (stack': seq<Term>, all: bool)
      ensures stack <= stack' && (all <==> forall k | k in args :: k in visited)
      ensures forall t | t in stack' :: t in stack || t in args
      ensures all ==> stack' == stack
      ensures !all ==> |stack'| > 0 && stack'[|stack'| - 1] in args && stack'[|stack'| - 1] !in visited
    {
      stack', all := stack, true;
      for i := 0 to |args|
        invariant stack <= stack' && (all <==> forall j | 0 <= j < i :: args[j] in visited)
        invariant forall t | t in stack' :: t in stack || t in args
        invariant all ==> stack' == stack
        invariant !all ==> |stack'| > 0 && stack'[|stack'| - 1] in args && stack'[|stack'| - 1] !in visited
      {
        if args[i] !in visited {
          stack', all := stack' + [args[i]], false;
        }
      }
    }

    /** Visits all subterms; false if there is a quantifier. */
    method CollectTerms() returns (ok: bool)
      requires InputOk() && fun2terms == map[] && sel2terms == map[] && nonSelect == {} && nonFuns == {}
      modifies this`fun2terms, this`sel2terms, this`nonSelect, this`nonFuns
      ensures ok <==> QuantifierFree(formulas)
      ensures ok ==> Collected(SubtermsAll(formulas), fun2terms, sel2terms) == true
      ensures ok ==> Listed(SubtermsAll(formulas), fun2terms, sel2terms) == true
    {
      ghost var S := SubtermsAll(formulas);
      SubtermsAllClosed(formulas);
      var stack, visited := formulas, {};
      while |stack| > 0
        invariant Traversal(formulas, stack, visited, fun2terms, sel2terms, nonSelect, nonFuns) == true
        decreases |S - visited|, OnVisited(stack, visited), TopRank(stack, visited)
      {
        var curr := stack[|stack| - 1];
        if curr in visited {
          DropVisited(formulas, stack, visited, fun2terms, sel2terms, nonSelect, nonFuns);
          stack := stack[..|stack| - 1];
        } else if curr.Quantified? {
          assert curr in stack;
          return false;
        } else {
          var stack', all := PushArgs(stack, visited, Kids(curr));
          if all {
            LessToVisit(S, stack, visited);
            VisitTop(stack, visited);
            visited := visited + {curr};
            stack := stack[..|stack| - 1];
          } else {
            PushedArgs(formulas, stack, stack', visited, fun2terms, sel2terms, nonSelect, nonFuns);
            stack := stack';
          }
        }
      }
      TraversalDone(formulas, visited, fun2terms, sel2terms, nonSelect, nonFuns);
      Prune(S);
      return true;
    }

    /** Marks the top of the stack as visited and classifies it. */
    method VisitTop(stack: seq<Term>, ghost visited: set<Term>)
      requires Traversal(formulas, stack, visited, fun2terms, sel2terms, nonSelect, nonFuns) && |stack| > 0
      requires var a := stack[|stack| - 1]; !a.Quantified? && a !in visited && forall k | k in Kids(a) :: k in visited
      modifies this`fun2terms, this`sel2terms, this`nonSelect, this`nonFuns
      ensures Traversal(formulas, stack[..|stack| - 1], visited + {stack[|stack| - 1]}, fun2terms, sel2terms, nonSelect,
                        nonFuns) == true
    {
      var curr := stack[|stack| - 1];
      Visit(formulas, stack, visited, fun2terms, sel2terms, nonSelect, nonFuns, curr);
      MarkNonSelect(curr);
      Insert(curr);
      if curr.AsArray? {
        nonFuns := nonFuns + {curr.f};
      }
    }

    /** Drops the groups that must stay as they are. */
    method Prune(ghost S: set<Term>)
      requires Grouped(S, fun2terms, true) == true && Grouped(S, sel2terms, false) == true
      requires nonSelect == NonSelects(S) && forall f :: f in nonFuns <==> AsArray(f) in S
      modifies this`fun2terms, this`sel2terms
      ensures Collected(S, fun2terms, sel2terms) == true && Listed(S, fun2terms, sel2terms) == true
    {
      PrunedCollected(S, fun2terms, sel2terms, nonSelect, nonFuns);
      var nons := set c | c in sel2terms && Const(c) in nonSelect;
      sel2terms := sel2terms - nons;
      var toDelete := set f | f in fun2terms && f in nonFuns;
      fun2terms := fun2terms - toDelete;
    }

    // -- abstraction

    /** Constants assigned so far: a bijection, with everything from next on unused. */
    ghost predicate InfoOk()
      reads this`next, info
    {
      && base <= next && Bijection(info.View(), base) && forall c | c in info.c2t :: c < next
    }

    /** A fresh constant for each of the terms. */
    method AbstractSet(ts: set<Term>)
      requires InfoOk() && !info.isSealed && forall t | t in ts :: t !in info.t2c && KeyOf(t) != NoKey
      modifies info, this`next
      ensures InfoOk() && !info.isSealed && info.t2c.Keys == old(info.t2c.Keys) + ts && old(next) <= next
    {
      var rest := ts;
      while rest != {}
        invariant InfoOk() && !info.isSealed && rest <= ts && old(next) <= next
        invariant info.t2c.Keys == old(info.t2c.Keys) + (ts - rest)
        decreases rest
      {
        var t :| t in rest;
        info.SetAbstr(t, next);
        next := next + 1;
        rest := rest - {t};
      }
    }

    method AbstractGroups(groups: Groups, ghost funs: bool)
      requires InfoOk() && !info.isSealed && Keyed(groups, funs)
      requires forall t | t in info.t2c :: t !in Members(groups, groups.Keys)
      modifies info, this`next
      ensures InfoOk() && !info.isSealed && info.t2c.Keys == old(info.t2c.Keys) + Members(groups, groups.Keys)
      ensures old(next) <= next
    {
      var rest := groups.Keys;
      while rest != {}
        invariant InfoOk() && !info.isSealed && rest <= groups.Keys && old(next) <= next
        invariant info.t2c.Keys == old(info.t2c.Keys) + Members(groups, groups.Keys - rest)
        decreases rest
      {
        var n :| n in rest;
        MembersSplit(groups, funs, rest, n);
        AbstractSet(groups[n].varArgs);
        AbstractSet(groups[n].constArgs - groups[n].varArgs);
        rest := rest - {n};
      }
    }

    /** Everything is in place: the groups, the substitution, the abstracted formulas. */
    ghost predicate Ready()
      reads this`next, this`fun2terms, this`sel2terms, this`abstr, info
    {
      && InputOk() && InfoOk() && info.isSealed
      && Collected(SubtermsAll(formulas), fun2terms, sel2terms)
      && AllChosen(info.t2c, fun2terms, sel2terms)
      && abstr == AbstractAll(formulas, info.t2c)
    }

    /** Collects and abstracts; fails on quantifiers only. */
    method Init() returns (ok: bool)
      requires InputOk() && info.t2c == map[] && info.c2t == map[] && !info.isSealed && abstr == []
      requires fun2terms == map[] && sel2terms == map[] && nonSelect == {} && nonFuns == {}
      modifies this`fun2terms, this`sel2terms, this`nonSelect, this`nonFuns, this`next, this`abstr, info
      ensures ok <==> QuantifierFree(formulas)
      ensures ok ==> Ready() == true
    {
      ok := CollectTerms();
      if ok {
        AbstractTerms();
      }
    }

    /** A constant for every term collected, and the formulas over the constants. */
    method AbstractTerms()
      requires InputOk() && info.t2c == map[] && info.c2t == map[] && !info.isSealed && abstr == []
      requires Collected(SubtermsAll(formulas), fun2terms, sel2terms) == true
      modifies this`next, this`abstr, info
      ensures Ready() == true
    {
      AbstractAllGroups();
      info.Seal();
      AbstractFormulas();
    }

    method AbstractAllGroups()
      requires base <= next && info.t2c == map[] && info.c2t == map[] && !info.isSealed
      requires Collected(SubtermsAll(formulas), fun2terms, sel2terms) == true
      modifies this`next, info
      ensures InfoOk() == true && !info.isSealed && AllChosen(info.t2c, fun2terms, sel2terms) == true
    {
      CollectedMembers(SubtermsAll(formulas), fun2terms, sel2terms);
      AbstractGroups(fun2terms, true);
      AbstractGroups(sel2terms, false);
    }

    method AbstractFormulas()
      requires info.isSealed && abstr == []
      modifies this`abstr
      ensures abstr == AbstractAll(formulas, info.t2c)
    {
      for i := 0 to |formulas|
        invariant |abstr| == i && forall j | 0 <= j < i :: abstr[j] == Abstract(formulas[j], info.t2c)
      {
        abstr := abstr + [info.AbstractTerm(formulas[i])];
      }
    }

    // -- lemmas

    /** The Ackermann lemma for two terms; false if none is needed. */
    method AckrPair(t1: Term, t2: Term) returns (added: bool)
      requires info.isSealed && Paired(info.t2c, t1, t2)
      modifies this`ackrs
      ensures ackrs == old(ackrs) + PairLemmas(info.t2c, simp, t1, t2)
      ensures added <==> |PairLemmas(info.t2c, simp, t1, t2)| == 1
      ensures added ==> ackrs == old(ackrs) + [simp(AckLemma(t1, t2, info.t2c))]
      ensures !added ==> ackrs == old(ackrs)
      ensures added <==> simp(AckLemma(t1, t2, info.t2c)) != Val(TRUE)
                         && forall i | 0 <= i < |Kids(t1)| && Kids(t1)[i].Val? && Kids(t2)[i].Val? ::
                              Kids(t1)[i].v == Kids(t2)[i].v
    {
      var xs, ys := Kids(t1), Kids(t2);
      var eqs: seq<Term> := [];
      for i := 0 to |xs|
        invariant eqs == Equations(xs[..i], ys[..i]) && ackrs == old(ackrs)
        invariant forall j | 0 <= j < i :: !AreDistinct(xs[j], ys[j])
      {
        assert xs[..i + 1][..i] == xs[..i] && ys[..i + 1][..i] == ys[..i];
        if xs[i] == ys[i] {
          continue;
        }
        if AreDistinct(xs[i], ys[i]) {
          return false;
        }
        eqs := eqs + [Op(Eq, [xs[i], ys[i]])];
      }
      assert xs[..|xs|] == xs && ys[..|ys|] == ys;
      var cg := Op(Implies, [Op(And, eqs), Op(Eq, [Const(info.GetAbstr(t1)), Const(info.GetAbstr(t2))])]);
      var cga := simp(info.AbstractTerm(cg));
      if cga == Val(TRUE) {
        return false;
      }
      ackrs := ackrs + [cga];
      return true;
    }

    /** The lemmas for all pairs of one group that may need one. */
    method AckrGroup(ts: AppSet)
      requires info.isSealed && Preserving(th, simp) && GroupPaired(info.t2c, ts)
      modifies this`ackrs
      ensures old(ackrs) <= ackrs && GroupCovered(th, info.t2c, ackrs, ts)
      ensures LemmasValid(th, info.t2c, old(ackrs)) ==> LemmasValid(th, info.t2c, ackrs)
      ensures |ackrs| <= |old(ackrs)| + GroupPairs(ts)
    {
      var rest := ts.varArgs;
      while rest != {}
        invariant rest <= ts.varArgs && old(ackrs) <= ackrs
        invariant RestCovered(th, info.t2c, ackrs, ts, rest)
        invariant LemmasValid(th, info.t2c, old(ackrs)) ==> LemmasValid(th, info.t2c, ackrs)
        invariant |ackrs| + RestPairs(ts, |rest|) <= |old(ackrs)| + GroupPairs(ts)
        decreases rest
      {
        var t1 :| t1 in rest;
        ghost var before := ackrs;
        AckrAgainst(t1, rest - {t1}, ts);
        ghost var middle := ackrs;
        AckrAgainst(t1, ts.constArgs, ts);
        RestStep(th, info.t2c, before, middle, ackrs, ts, rest, t1);
        RestPairsStep(ts, rest, t1);
        rest := rest - {t1};
      }
    }

    /** The lemmas for one term against others of its group. */
    method AckrAgainst(t1: Term, others: set<Term>, ghost ts: AppSet)
      requires info.isSealed && Preserving(th, simp) && GroupPaired(info.t2c, ts)
      requires t1 in ts.varArgs && others <= ts.varArgs + ts.constArgs
      modifies this`ackrs
      ensures old(ackrs) <= ackrs && |ackrs| <= |old(ackrs)| + |others|
      ensures forall t2 | t2 in others && t2 != t1 :: Covered(th, info.t2c, ackrs, t1, t2)
      ensures LemmasValid(th, info.t2c, old(ackrs)) ==> LemmasValid(th, info.t2c, ackrs)
    {
      var rest := others;
      while rest != {}
        invariant rest <= others && old(ackrs) <= ackrs && |ackrs| + |rest| <= |old(ackrs)| + |others|
        invariant forall t2 | t2 in others && t2 !in rest && t2 != t1 :: Covered(th, info.t2c, ackrs, t1, t2)
        invariant LemmasValid(th, info.t2c, old(ackrs)) ==> LemmasValid(th, info.t2c, ackrs)
        decreases rest
      {
        var t2 :| t2 in rest;
        ghost var before := ackrs;
        if t1 != t2 {
          PairCovered(th, info.t2c, simp, ackrs, t1, t2);
          var added := AckrPair(t1, t2);
        }
        forall t | t in others && t !in rest && t != t1 ensures Covered(th, info.t2c, ackrs, t1, t) {
          CoveredMore(th, info.t2c, before, ackrs, t1, t);
        }
        rest := rest - {t2};
      }
    }

    /** Lemmas for all groups. */
    method EncodeGroups(groups: Groups)
      requires info.isSealed && Preserving(th, simp) && forall n | n in groups :: GroupPaired(info.t2c, groups[n])
      modifies this`ackrs
      ensures old(ackrs) <= ackrs && AllGroupsCovered(th, info.t2c, ackrs, groups) == true
      ensures LemmasValid(th, info.t2c, old(ackrs)) ==> LemmasValid(th, info.t2c, ackrs)
      ensures |ackrs| <= |old(ackrs)| + TotalPairs(groups.Keys, groups)
    {
      var rest := groups.Keys;
      while rest != {}
        invariant rest <= groups.Keys && old(ackrs) <= ackrs
        invariant forall n | n in groups && n !in rest :: GroupCovered(th, info.t2c, ackrs, groups[n])
        invariant LemmasValid(th, info.t2c, old(ackrs)) ==> LemmasValid(th, info.t2c, ackrs)
        invariant |ackrs| + TotalPairs(rest, groups) <= |old(ackrs)| + TotalPairs(groups.Keys, groups)
        decreases rest
      {
        var n :| n in rest;
        ghost var before := ackrs;
        AckrGroup(groups[n]);
        TotalPick(rest, groups, n);
        forall i | i in groups && i !in rest ensures GroupCovered(th, info.t2c, ackrs, groups[i]) {
          GroupCoveredMore(th, info.t2c, before, ackrs, groups[i]);
        }
        rest := rest - {n};
      }
    }

    /** All lemmas at once: they force congruence, and hold wherever there is congruence. */
    method EagerEnc()
      requires Ready() && ackrs == []
      modifies this`ackrs
      ensures Ready() == true
      ensures Forced(th, info.t2c, ackrs) == true && LemmasValid(th, info.t2c, ackrs) == true
      ensures |ackrs| <= TotalPairs(fun2terms.Keys, fun2terms) + TotalPairs(sel2terms.Keys, sel2terms)
    {
      AllPaired(formulas, fun2terms, sel2terms, info.t2c);
      EncodeBoth(fun2terms, sel2terms);
      CoveredForced(th, formulas, fun2terms, sel2terms, info.t2c, ackrs);
    }

    /** Lemmas for the function groups, then for the array groups. */
    method EncodeBoth(f2t: Groups, s2t: Groups)
      requires info.isSealed && Preserving(th, simp) && ackrs == []
      requires (forall n | n in f2t :: GroupPaired(info.t2c, f2t[n])) == true
      requires (forall n | n in s2t :: GroupPaired(info.t2c, s2t[n])) == true
      modifies this`ackrs
      ensures (AllGroupsCovered(th, info.t2c, ackrs, f2t) && AllGroupsCovered(th, info.t2c, ackrs, s2t)) == true
      ensures LemmasValid(th, info.t2c, ackrs) == true
      ensures |ackrs| <= TotalPairs(f2t.Keys, f2t) + TotalPairs(s2t.Keys, s2t)
    {
      EncodeGroups(f2t);
      ghost var before := ackrs;
      EncodeGroups(s2t);
      AllGroupsCoveredMore(th, info.t2c, before, ackrs, f2t);
    }

    /** Reduces the formulas to ones without the abstracted applications, unless there is a
        quantifier or the lemma bound exceeds the limit.  The result is satisfiable exactly
        when the formulas are. */
    method MkAckermann(limit: UpperBound) returns (ok: bool, g: seq<Term>)
      requires InputOk() && info.t2c == map[] && info.c2t == map[] && !info.isSealed && abstr == [] && ackrs == []
      requires fun2terms == map[] && sel2terms == map[] && nonSelect == {} && nonFuns == {}
      requires |SubtermsAll(formulas)| < WORD
      modifies this, info
      ensures ok <==> QuantifierFree(formulas) && Affordable(fun2terms, sel2terms, limit) == true
      ensures QuantifierFree(formulas) && !Hopeless(limit) ==>
                Collected(SubtermsAll(formulas), fun2terms, sel2terms) == true
      ensures ok ==> Ready() == true && Forced(th, info.t2c, ackrs) == true && g == abstr + ackrs
      ensures ok ==> (Satisfiable(th, formulas) <==> Satisfiable(th, g))
      ensures ok ==> CountKept(fun2terms, sel2terms, limit, |g| - |formulas|) == true
      ensures ok ==> Eliminated(formulas, abstr, base) == true
      ensures QuantifierFree(formulas) && Generous(fun2terms, sel2terms, limit) ==> ok
      ensures limit.Limit? && limit.n <= 0 ==> !ok
    {
      g := [];
      if limit.Limit? && limit.n <= 0 {
        return false, g;
      }
      ok := Init();
      if !ok {
        return;
      }
      GroupSizes(SubtermsAll(formulas), fun2terms, sel2terms);
      GenerousAffordable(fun2terms, sel2terms, limit);
      if limit.Limit? {
        var bound := CalculateLemmaBound(fun2terms, sel2terms);
        if bound.Infinite? || bound.n > limit.n {
          return false, g;
        }
      }
      g := EncodeGoal();
      LemmasWithin(fun2terms, sel2terms, limit, |g| - |formulas|);
    }

    /** The abstraction with all its lemmas. */
    method EncodeGoal() returns (g: seq<Term>)
      requires Ready() == true && ackrs == []
      modifies this`ackrs
      ensures Ready() == true && Forced(th, info.t2c, ackrs) == true && g == abstr + ackrs
      ensures Eliminated(formulas, abstr, base) == true
      ensures Satisfiable(th, formulas) <==> Satisfiable(th, g)
      ensures |g| - |formulas| <= TotalPairs(fun2terms.Keys, fun2terms) + TotalPairs(sel2terms.Keys, sel2terms)
    {
      EagerEnc();
      NothingLeft(formulas, fun2terms, sel2terms, info.View(), base);
      ReadyReduction(formulas, fun2terms, sel2terms, info.View(), base);
      Equisatisfiable(th, formulas, info.View(), base, ackrs);
      g := abstr + ackrs;
    }

    /** The model of the originals that the converter builds from a model of the result. */
    method ConvertModel(abstrModel: Model) returns (model: Model)
      requires Ready() && Forced(th, info.t2c, ackrs) && AllHold(th, abstr + ackrs, abstrModel)
      requires forall c | c in info.c2t :: c in abstrModel.consts
      ensures AllHold(th, formulas, model)
    {
      ReadyReduction(formulas, fun2terms, sel2terms, info.View(), base);
      AllHoldConcat(th, abstr, ackrs, abstrModel);
      var converter := new Converter(info.View());
      model := converter.ConvertConstants(th, abstrModel);
      BackwardSound(th, info.View(), base, formulas, abstrModel, model);
    }

    // -- solving

    method PushAbstraction(solver: UfFreeSolver)
      requires solver.asserted == []
      modifies solver`asserted
      ensures solver.asserted == abstr
    {
      for i := 0 to |abstr|
        invariant solver.asserted == abstr[..i]
      {
        solver.AssertExpr(abstr[i]);
      }
    }

    /** All lemmas at once. */
    method Eager(solver: UfFreeSolver) returns (rv: LBool)
      requires Ready() && ackrs == [] && solver.asserted == [] && SoundOracle(th, solver.oracle)
      modifies this`ackrs, solver
      ensures rv == if Satisfiable(th, formulas) then True else False
    {
      ReadyReduction(formulas, fun2terms, sel2terms, info.View(), base);
      AbstractionRelaxes(th, formulas, info.View(), base);
      PushAbstraction(solver);
      var rv0 := solver.CheckSat();
      if rv0.Unsat? {
        return False;
      }
      EagerEnc();
      var all := simp(Op(And, ackrs));
      solver.AssertExpr(all);
      Equisatisfiable(th, formulas, info.View(), base, ackrs);
      ConjunctionSatisfiable(th, simp, abstr, ackrs);
      var rv1 := solver.CheckSat();
      rv := if rv1.Sat? then True else False;
    }

    /** Lemmas for the reported pairs. */
    method Refine(pairs: seq<(Term, Term)>)
      requires info.isSealed && Preserving(th, simp) && AllPairs(info.t2c, pairs)
      modifies this`ackrs
      ensures old(ackrs) <= ackrs && PairsCovered(th, info.t2c, ackrs, pairs, |pairs|) == true
      ensures pairs == [] ==> ackrs == old(ackrs)
      ensures LemmasValid(th, info.t2c, old(ackrs)) ==> LemmasValid(th, info.t2c, ackrs)
    {
      for i := 0 to |pairs|
        invariant old(ackrs) <= ackrs && PairsCovered(th, info.t2c, ackrs, pairs, i) == true
        invariant i == 0 ==> ackrs == old(ackrs)
        invariant LemmasValid(th, info.t2c, old(ackrs)) ==> LemmasValid(th, info.t2c, ackrs)
      {
        ghost var before := ackrs;
        assert pairs[i] in pairs;
        PairCovered(th, info.t2c, simp, ackrs, pairs[i].0, pairs[i].1);
        var added := AckrPair(pairs[i].0, pairs[i].1);
        PairsCoveredMore(th, info.t2c, before, ackrs, pairs, i);
      }
    }

    /** A round after a failed check: its lemmas rule out the model. */
    method Round(pairs: seq<(Term, Term)>, ghost m: Model, ghost rounds: nat)
      requires info.isSealed && Preserving(th, simp) == true && CheckOk(th, info.t2c, m, Conflicts(pairs)) == true
      requires Settling(th, info.t2c, ackrs, rounds) == true && AllHold(th, ackrs, m) == true
      modifies this`ackrs
      ensures old(ackrs) <= ackrs && AllHold(th, ackrs, m) == false
      ensures Settling(th, info.t2c, ackrs, rounds + 1) == true
    {
      ghost var before := ackrs;
      Refine(pairs);
      RoundProgress(th, info.t2c, before, ackrs, pairs, rounds, m);
    }

    method PushLemmas(solver: UfFreeSolver, head: nat, ghost before: seq<Term>) returns (head': nat)
      requires before <= ackrs && head == |before| && solver.asserted == abstr + before
      modifies solver`asserted
      ensures head' == |ackrs| && solver.asserted == abstr + ackrs
    {
      head' := head;
      assert ackrs[..head'] == before;
      while head' < |ackrs|
        invariant head' <= |ackrs| && solver.asserted == abstr + ackrs[..head']
      {
        solver.AssertExpr(ackrs[head']);
        head' := head' + 1;
      }
    }

    /** Asks for a model of the abstraction and its lemmas so far, and checks it. */
    method CheckRound(solver: UfFreeSolver, check: Checker, it: nat) returns (d: Decision, ghost m: Model)
      requires Reduction(formulas, info.View(), base) == true && abstr == AbstractAll(formulas, info.t2c) && Arrays(th)
      requires SoundOracle(th, solver.oracle) && SoundChecker(th, check)
      requires LemmasValid(th, info.t2c, ackrs) == true && solver.asserted == abstr + ackrs
      modifies solver`calls
      ensures d.Decided? ==> d.rv == if Satisfiable(th, formulas) then True else False
      ensures d.Refuted? ==> CheckOk(th, info.t2c, m, Conflicts(d.pairs)) == true && AllHold(th, ackrs, m) == true
    {
      LemmasRelax(th, formulas, info.View(), base, ackrs);
      var r := solver.CheckSat();
      if r.Unsat? {
        return Decided(False), Model(map[], map[]);
      }
      m := r.m;
      var verdict := check(it, info.View(), r.m);
      ModelChecked(th, formulas, info.View(), base, ackrs, r.m, verdict);
      d := if verdict.Fine? then Decided(True) else Refuted(verdict.pairs);
    }

    /** Lemmas on demand: every failing round settles a pair not settled before, so there are
        no more rounds than pairs, and one. */
    method Lazy(solver: UfFreeSolver, check: Checker) returns (rv: LBool, ghost rounds: nat)
      requires Ready() && ackrs == [] && solver.asserted == [] && SoundOracle(th, solver.oracle)
               && SoundChecker(th, check)
      modifies this`ackrs, solver
      ensures rv == if Satisfiable(th, formulas) then True else False
      ensures rounds <= |LemmaPairs(info.t2c)| + 1
    {
      ReadyReduction(formulas, fun2terms, sel2terms, info.View(), base);
      PushAbstraction(solver);
      rv, rounds := RefineAll(solver, check);
    }

    /** The loop of the lazy strategy. */
    method RefineAll(solver: UfFreeSolver, check: Checker) returns (rv: LBool, ghost rounds: nat)
      requires Reduction(formulas, info.View(), base) == true && abstr == AbstractAll(formulas, info.t2c)
               && Arrays(th) == true
      requires info.isSealed && Preserving(th, simp) == true && ackrs == [] && solver.asserted == abstr
      requires SoundOracle(th, solver.oracle) == true && SoundChecker(th, check) == true
      modifies this`ackrs, solver
      ensures rv == if Satisfiable(th, formulas) then True else False
      ensures rounds <= |LemmaPairs(info.t2c)| + 1
    {
      ghost var pairs := |LemmaPairs(info.t2c)|;
      var ackrHead, it := 0, 0;
      rounds := 0;
      NothingSettled(th, info.t2c);
      while true
        invariant it == rounds && solver.asserted == abstr + ackrs && ackrHead == |ackrs|
        invariant Settling(th, info.t2c, ackrs, rounds) == true
        decreases pairs - rounds
      {
        RoundsBounded(th, info.t2c, ackrs, rounds);
        it, rounds := it + 1, rounds + 1;
        var decision;
        decision, ackrHead := LazyRound(solver, check, it, ackrHead);
        if decision.Decided? {
          return decision.rv, rounds;
        }
        RoundsBounded(th, info.t2c, ackrs, rounds);
      }
    }

    /** One round: an answer, or lemmas that settle one more pair. */
    method LazyRound(solver: UfFreeSolver, check: Checker, it: nat, head: nat) returns (d: Decision, head': nat)
      requires Reduction(formulas, info.View(), base) == true && abstr == AbstractAll(formulas, info.t2c)
      requires Arrays(th) == true && info.isSealed && Preserving(th, simp) == true
      requires SoundOracle(th, solver.oracle) == true && SoundChecker(th, check) == true
      requires solver.asserted == abstr + ackrs && head == |ackrs| && it > 0
      requires Settling(th, info.t2c, ackrs, it - 1) == true
      modifies this`ackrs, solver
      ensures d.Decided? ==> d.rv == if Satisfiable(th, formulas) then True else False
      ensures d.Refuted? ==>
                Settling(th, info.t2c, ackrs, it) == true && solver.asserted == abstr + ackrs && head' == |ackrs|
    {
      ghost var m;
      head' := head;
      d, m := CheckRound(solver, check, it);
      if d.Refuted? {
        ghost var before := ackrs;
        Round(d.pairs, m, it - 1);
        head' := PushLemmas(solver, head, before);
      }
    }

    /** Both strategies decide the formulas; only a quantifier makes them give up. */
    method Solve(eager: bool, solver: UfFreeSolver, check: Checker) returns (rv: LBool)
      requires InputOk() && info.t2c == map[] && info.c2t == map[] && !info.isSealed && abstr == [] && ackrs == []
      requires fun2terms == map[] && sel2terms == map[] && nonSelect == {} && nonFuns == {}
      requires solver.asserted == [] && SoundOracle(th, solver.oracle) && SoundChecker(th, check)
      modifies this, info, solver
      ensures rv == Undef <==> exists t :: t in SubtermsAll(formulas) && t.Quantified?
      ensures rv != Undef ==> rv == if Satisfiable(th, formulas) then True else False
    {
      var ok := Init();
      if !ok {
        return Undef;
      }
      if eager {
        rv := Eager(solver);
      } else {
        ghost var rounds;
        rv, rounds := Lazy(solver, check);
      }
    }
  }

  datatype LBool = True | False | Undef

  /** What one lazy round finds out. */
  datatype Decision = Decided(rv: LBool) | Refuted(pairs: seq<(Term, Term)>)

  datatype UpperBound = NoLimit | Limit(n: int)

  ghost predicate QuantifierFree(formulas: seq<Term>) {
    forall t | t in SubtermsAll(formulas) :: !t.Quantified?
  }

  predicate Hopeless(limit: UpperBound) {
    limit.Limit? && limit.n <= 0
  }

  /** No more lemmas than pairs, nor than the limit allows where the bound counts all pairs. */
  ghost predicate CountKept(f2t: Groups, s2t: Groups, limit: UpperBound, lemmas: int) {
    && lemmas <= TotalPairs(f2t.Keys, f2t) + TotalPairs(s2t.Keys, s2t)
    && (limit.Limit? && AllFit(f2t) && AllFit(s2t) ==> lemmas <= limit.n)
  }

  lemma LemmasWithin(f2t: Groups, s2t: Groups, limit: UpperBound, lemmas: int)
    requires lemmas <= TotalPairs(f2t.Keys, f2t) + TotalPairs(s2t.Keys, s2t) && Affordable(f2t, s2t, limit)
    ensures CountKept(f2t, s2t, limit, lemmas)
  {
    if limit.Limit? { LemmaBoundExact(f2t, s2t); }
  }

  /** The lemma bound is within the limit. */
  ghost predicate Affordable(f2t: Groups, s2t: Groups, limit: UpperBound) {
    && !Hopeless(limit)
    && (limit.Limit? ==> SizesAreWords(f2t) && SizesAreWords(s2t)
                         && LemmaBound(f2t, s2t).Finite? && LemmaBound(f2t, s2t).n <= limit.n)
  }

  /** No limit, or one that all pairs of groups of ordinary size are within. */
  ghost predicate Generous(f2t: Groups, s2t: Groups, limit: UpperBound) {
    limit.Limit? ==> && limit.n > 0 && Ordinary(f2t) && Ordinary(s2t)
                     && TotalPairs(f2t.Keys, f2t) + TotalPairs(s2t.Keys, s2t) <= limit.n
  }

  lemma GenerousAffordable(f2t: Groups, s2t: Groups, limit: UpperBound)
    ensures Generous(f2t, s2t, limit) ==> Affordable(f2t, s2t, limit) == true
  {
    if Generous(f2t, s2t, limit) && limit.Limit? { OrdinaryBound(f2t, s2t); }
  }

  /** Models of the lemmas are congruent. */
  ghost predicate Forced(th: Theory, s: map<Term, nat>, ackrs: seq<Term>) {
    forall m {:trigger AllHold(th, ackrs, m)} | AllHold(th, ackrs, m) :: AllCongruent(th, s, m)
  }

  lemma AllPaired(formulas: seq<Term>, f2t: Groups, s2t: Groups, s: map<Term, nat>)
    requires Collected(SubtermsAll(formulas), f2t, s2t) && WellFormed(formulas)
    requires AllChosen(s, f2t, s2t)
    ensures forall n | n in f2t :: GroupPaired(s, f2t[n])
    ensures forall n | n in s2t :: GroupPaired(s, s2t[n])
  {
    forall t | t in s ensures KeyOf(t) != NoKey { assert Chosen(f2t, s2t, t); }
    forall n, t | n in f2t && t in f2t[n].constArgs + f2t[n].varArgs ensures t in s { assert Chosen(f2t, s2t, t); }
    forall n, t | n in s2t && t in s2t[n].constArgs + s2t[n].varArgs ensures t in s { assert Chosen(f2t, s2t, t); }
  }

  lemma CoveredForced(th: Theory, formulas: seq<Term>, f2t: Groups, s2t: Groups, s: map<Term, nat>, ackrs: seq<Term>)
    requires Collected(SubtermsAll(formulas), f2t, s2t) && WellFormed(formulas)
    requires AllChosen(s, f2t, s2t)
    requires (AllGroupsCovered(th, s, ackrs, f2t) && AllGroupsCovered(th, s, ackrs, s2t)) == true
    ensures Forced(th, s, ackrs)
  {
    forall m {:trigger AllHold(th, ackrs, m)} | AllHold(th, ackrs, m) ensures AllCongruent(th, s, m) {
      CoveredCongruent(th, SubtermsAll(formulas), f2t, s2t, s, ackrs, m);
    }
  }

  lemma ReadyReduction(formulas: seq<Term>, f2t: Groups, s2t: Groups, info: Info, lo: nat)
    requires AllBelow(formulas, lo) && WellFormed(formulas) && Bijection(info, lo)
    requires Collected(SubtermsAll(formulas), f2t, s2t) && AllChosen(info.t2c, f2t, s2t)
    ensures Reduction(formulas, info, lo)
  {
    SubtermsAllClosed(formulas);
    ChosenSeparated(SubtermsAll(formulas), f2t, s2t, info.t2c);
  }

  lemma GroupSizes(S: set<Term>, f2t: Groups, s2t: Groups)
    requires Collected(S, f2t, s2t) && |S| < WORD
    ensures SizesAreWords(f2t) && SizesAreWords(s2t)
  {
    forall n | n in f2t ensures |f2t[n].varArgs| < WORD { SubsetSize(f2t[n].varArgs, S); }
    forall n | n in s2t ensures |s2t[n].varArgs| < WORD { SubsetSize(s2t[n].varArgs, S); }
  }

  /** All terms of the groups listed. */
  function Members(groups: Groups, keys: set<nat>): set<Term>
    requires keys <= groups.Keys
  {
    set n, t | n in keys && t in groups[n].constArgs + groups[n].varArgs :: t
  }

  ghost predicate Keyed(groups: Groups, funs: bool) {
    forall n, t | n in groups && t in groups[n].constArgs + groups[n].varArgs :: KeyOf(t) == KeyFor(funs, n)
  }

  lemma MembersPlus(groups: Groups, keys: set<nat>, n: nat)
    requires keys <= groups.Keys && n in groups
    ensures Members(groups, keys + {n}) == Members(groups, keys) + (groups[n].constArgs + groups[n].varArgs)
  {
    var xs, ys := Members(groups, keys + {n}), Members(groups, keys) + (groups[n].constArgs + groups[n].varArgs);
    forall t | t in ys ensures t in xs {
      if t in Members(groups, keys) {
        var i :| i in keys && t in groups[i].constArgs + groups[i].varArgs;
        assert i in keys + {n};
      } else {
        assert n in keys + {n};
      }
    }
    forall t | t in xs ensures t in ys {
      var i :| i in keys + {n} && t in groups[i].constArgs + groups[i].varArgs;
      if i != n { assert i in keys; }
    }
  }

  lemma MembersSplit(groups: Groups, funs: bool, rest: set<nat>, n: nat)
    requires Keyed(groups, funs) && rest <= groups.Keys && n in rest
    ensures Members(groups, groups.Keys - (rest - {n})) ==
            Members(groups, groups.Keys - rest) + groups[n].varArgs + (groups[n].constArgs - groups[n].varArgs)
    ensures forall t | t in groups[n].constArgs + groups[n].varArgs ::
              t !in Members(groups, groups.Keys - rest) && t in Members(groups, groups.Keys)
  {
    var before, after := groups.Keys - rest, groups.Keys - (rest - {n});
    assert after == before + {n};
    MembersPlus(groups, before, n);
    forall t | t in groups[n].constArgs + groups[n].varArgs
      ensures t !in Members(groups, before) && t in Members(groups, groups.Keys)
    {
      assert KeyOf(t) == KeyFor(funs, n);
      forall i | i in before ensures t !in groups[i].constArgs + groups[i].varArgs {
        assert t in groups[i].constArgs + groups[i].varArgs ==> KeyOf(t) == KeyFor(funs, i);
      }
    }
  }

  lemma CollectedMembers(S: set<Term>, f2t: Groups, s2t: Groups)
    requires Collected(S, f2t, s2t)
    ensures Keyed(f2t, true) && Keyed(s2t, false) && Members(f2t, f2t.Keys) !! Members(s2t, s2t.Keys)
    ensures forall t :: Chosen(f2t, s2t, t) <==> t in Members(f2t, f2t.Keys) + Members(s2t, s2t.Keys)
  {}

  ghost predicate GroupPaired(s: map<Term, nat>, ts: AppSet) {
    forall t1, t2 | t1 in ts.varArgs + ts.constArgs && t2 in ts.varArgs + ts.constArgs :: Paired(s, t1, t2)
  }

  /** The terms with variable arguments outside rest are covered. */
  ghost predicate RestCovered(th: Theory, s: map<Term, nat>, ackrs: seq<Term>, ts: AppSet, rest: set<Term>) {
    forall t1, t2 | t1 in ts.varArgs && t2 in ts.varArgs + ts.constArgs && t1 != t2
                    && !(t1 in rest && (t2 in rest || t2 in ts.constArgs)) ::
      Covered(th, s, ackrs, t1, t2) || Covered(th, s, ackrs, t2, t1)
  }

  lemma RestStep(th: Theory, s: map<Term, nat>, before: seq<Term>, middle: seq<Term>, after: seq<Term>,
                 ts: AppSet, rest: set<Term>, t1: Term)
    requires RestCovered(th, s, before, ts, rest) && before <= middle <= after && t1 in rest
    requires forall t2 | t2 in rest - {t1} :: Covered(th, s, middle, t1, t2)
    requires forall t2 | t2 in ts.constArgs && t2 != t1 :: Covered(th, s, after, t1, t2)
    ensures RestCovered(th, s, after, ts, rest - {t1})
  {
    forall u1, u2 | u1 in ts.varArgs && u2 in ts.varArgs + ts.constArgs && u1 != u2
                    && !(u1 in rest - {t1} && (u2 in rest - {t1} || u2 in ts.constArgs))
      ensures Covered(th, s, after, u1, u2) || Covered(th, s, after, u2, u1)
    {
      if Covered(th, s, before, u1, u2) { CoveredMore(th, s, before, after, u1, u2); }
      else if Covered(th, s, before, u2, u1) { CoveredMore(th, s, before, after, u2, u1); }
      else if u1 == t1 {
        if u2 !in ts.constArgs { CoveredMore(th, s, middle, after, t1, u2); }
      } else {
        assert u2 == t1;
        CoveredMore(th, s, middle, after, t1, u1);
      }
    }
  }

  /** How many pairs are left when r terms with variable arguments are. */
  function RestPairs(ts: AppSet, r: nat): nat {
    Pairs(r) + |ts.constArgs| * r
  }

  lemma RestPairsStep(ts: AppSet, rest: set<Term>, t1: Term)
    requires t1 in rest
    ensures RestPairs(ts, |rest|) == RestPairs(ts, |rest - {t1}|) + |rest - {t1}| + |ts.constArgs|
  {
    var r, c := |rest|, |ts.constArgs|;
    assert |rest - {t1}| == r - 1;
    assert c * r == c * (r - 1) + c;
  }
}
