/** The occurrence tables of ackr_helper.h, and the bound on the number of lemmas. */
module AckrHelper {
  import opened Terms
  import opened Ackr
  import opened Words

  /** The occurrences of one group: terms with literal arguments, and the others. */
  datatype AppSet = AppSet(constArgs: set<Term>, varArgs: set<Term>)

  type Groups = map<nat, AppSet>

  const NO_APPS := AppSet({}, {})

  /** The terms of V in group k, split by their arguments. */
  function GroupOf(V: set<Term>, k: Key): AppSet {
    AppSet(set t | t in V && KeyOf(t) == k && LiteralArgs(t), set t | t in V && KeyOf(t) == k && !LiteralArgs(t))
  }

  function KeyFor(funs: bool, n: nat): Key {
    if funs then FunKey(n) else ArrayKey(n)
  }

  /** groups lists exactly the groups of V, of functions or of arrays. */
  ghost predicate Grouped(V: set<Term>, groups: Groups, funs: bool) {
    && (forall n | n in groups :: groups[n] == GroupOf(V, KeyFor(funs, n)) && groups[n] != NO_APPS)
    && (forall n | GroupOf(V, KeyFor(funs, n)) != NO_APPS :: n in groups)
  }

  function Inserted(groups: Groups, n: nat, a: Term): Groups {
    var ts := if n in groups then groups[n] else NO_APPS;
    groups[n := if LiteralArgs(a) then ts.(constArgs := ts.constArgs + {a}) else ts.(varArgs := ts.varArgs + {a})]
  }

  lemma InsertedGroups(V: set<Term>, groups: Groups, funs: bool, n: nat, a: Term)
    requires Grouped(V, groups, funs) && KeyOf(a) == KeyFor(funs, n)
    ensures Grouped(V + {a}, Inserted(groups, n, a), funs)
  {
    var groups' := Inserted(groups, n, a);
    forall i ensures (i in groups' <==> GroupOf(V + {a}, KeyFor(funs, i)) != NO_APPS)
             ensures i in groups' ==> groups'[i] == GroupOf(V + {a}, KeyFor(funs, i))
    {
      var g, g' := GroupOf(V, KeyFor(funs, i)), GroupOf(V + {a}, KeyFor(funs, i));
      if i == n {
        if n !in groups { assert g == NO_APPS; }
        if LiteralArgs(a) { assert g'.constArgs == g.constArgs + {a} && g'.varArgs == g.varArgs; }
        else { assert g'.varArgs == g.varArgs + {a} && g'.constArgs == g.constArgs; }
        assert a in g'.constArgs + g'.varArgs;
      } else {
        assert g' == g;
      }
    }
  }

  lemma UngroupedTerm(V: set<Term>, groups: Groups, funs: bool, a: Term)
    requires Grouped(V, groups, funs) && forall n :: KeyOf(a) != KeyFor(funs, n)
    ensures Grouped(V + {a}, groups, funs)
  {
    forall i ensures GroupOf(V + {a}, KeyFor(funs, i)) == GroupOf(V, KeyFor(funs, i)) {
      var g, g' := GroupOf(V, KeyFor(funs, i)), GroupOf(V + {a}, KeyFor(funs, i));
      assert g'.constArgs == g.constArgs && g'.varArgs == g.varArgs;
    }
  }

  // ---------------------------------------------------------------- non-select occurrences

  /** Arguments in any position but the array of a select. */
  function NonSelectArgs(a: Term): set<Term> {
    set i | (if a.Op? && a.o == Select then 1 else 0) <= i < |Kids(a)| :: Kids(a)[i]
  }

  // ---------------------------------------------------------------- the lemma bound

  /** n choose 2 in 32-bit arithmetic. */
  function NChoose2(n: nat): nat
    requires n < WORD
  {
    if n % 2 == 1 then (n * (n / 2)) % WORD else ((n / 2) * ((n + WORD - 1) % WORD)) % WORD
  }

  /** A double that may be infinite. */
  datatype Amount = Finite(n: nat) | Infinite

  function Plus(x: Amount, y: Amount): Amount {
    if x.Finite? && y.Finite? then Finite(x.n + y.n) else Infinite
  }

  predicate AtLeast(x: Amount, n: nat) {
    x.Infinite? || n <= x.n
  }

  function NChoose2Chk(n: nat): Amount
    requires n < WORD
  {
    if Bit16(n) then Infinite else Finite(NChoose2(n))
  }

  predicate Bit16(n: nat) {
    (n / 0x1_0000) % 2 == 1
  }

  /** The number of pairs among n things. */
  function Pairs(n: nat): nat {
    if n == 0 then 0 else Pairs(n - 1) + (n - 1)
  }

  lemma {:induction false} PairsProduct(n: nat)
    ensures 2 * Pairs(n) == n * (n - 1)
  {
    if n > 0 {
      PairsProduct(n - 1);
      assert n * (n - 1) == (n - 1) * (n - 2) + 2 * (n - 1);
    }
  }

  /** n choose 2 is right modulo the word size. */
  lemma NChoose2Modular(n: nat)
    requires n < WORD
    ensures NChoose2(n) == Pairs(n) % WORD
  {
    PairsHalf(n);
    if n > 0 { WrappedPred(n); }
  }

  lemma PairsHalf(n: nat)
    ensures n % 2 == 1 ==> Pairs(n) == n * (n / 2)
    ensures n % 2 == 0 && n > 0 ==> Pairs(n) == (n / 2) * (n - 1)
    ensures n == 0 ==> Pairs(n) == 0
  {
    PairsProduct(n);
    var h := n / 2;
    if n % 2 == 1 {
      assert n * (n - 1) == n * (2 * h) == 2 * (n * h);
    } else {
      assert n * (n - 1) == (2 * h) * (n - 1) == 2 * (h * (n - 1));
    }
  }

  lemma WrappedPred(n: nat)
    requires 0 < n < WORD
    ensures (n + WORD - 1) % WORD == n - 1
  {}

  lemma {:induction false} PairsMono(m: nat, n: nat)
    requires m <= n
    ensures Pairs(m) <= Pairs(n)
    decreases n - m
  {
    if m < n { PairsMono(m, n - 1); }
  }

  /** The guarded count is infinite exactly when bit 16 is set, and otherwise the number of
      pairs modulo the word size: below 2^16 that number itself. */
  lemma NChoose2ChkExact(n: nat)
    requires n < WORD
    ensures NChoose2Chk(n).Infinite? <==> (n / 0x1_0000) % 2 == 1
    ensures NChoose2Chk(n).Finite? ==> NChoose2Chk(n).n == (n * (n - 1) / 2) % WORD
    ensures n < 0x1_0000 ==> NChoose2Chk(n) == Finite(Pairs(n))
  {
    NChoose2Modular(n);
    PairsProduct(n);
    Wrapped(Pairs(n));
    PairsAroundWord(n);
  }

  /** It bounds the number of pairs exactly below 2^17, or when bit 16 is set: the guard looks
      at no other bit. */
  lemma NChoose2ChkBounds(n: nat)
    requires n < WORD
    ensures AtLeast(NChoose2Chk(n), Pairs(n)) <==> n < 0x2_0000 || (n / 0x1_0000) % 2 == 1
  {
    NChoose2Modular(n);
    Wrapped(Pairs(n));
    PairsAroundWord(n);
  }

  /** 2^17 is the first number whose pairs the guarded count misses. */
  lemma NChoose2ChkTooSmall()
    ensures NChoose2Chk(0x2_0000) == Finite(0xffff_0000) && Pairs(0x2_0000) == 0x1_ffff_0000
  {
    PairsProduct(0x2_0000);
  }

  lemma Wrapped(p: nat)
    ensures p % WORD < WORD && (p < WORD ==> p % WORD == p)
  {}

  lemma PairsAroundWord(n: nat)
    ensures n < 0x1_0000 ==> Pairs(n) < WORD && (n / 0x1_0000) % 2 == 0
    ensures n >= 0x2_0000 ==> Pairs(n) >= WORD
    ensures 0x1_0000 <= n < 0x2_0000 ==> (n / 0x1_0000) % 2 == 1
  {
    if n < 0x1_0000 {
      PairsProduct(0x1_0000);
      PairsMono(n, 0x1_0000);
    } else if n >= 0x2_0000 {
      PairsProduct(0x2_0000);
      PairsMono(0x2_0000, n);
    }
  }

  /** How many lemmas one group gives rise to at most. */
  function GroupPairs(ts: AppSet): nat {
    Pairs(|ts.varArgs|) + |ts.constArgs| * |ts.varArgs|
  }

  /** The pairs themselves: two different terms, one at least with variable arguments. */
  ghost function PairsOf(vs: set<Term>, cs: set<Term>): set<set<Term>> {
    set t1, t2 | t1 in vs && t2 in vs + cs && t1 != t2 :: {t1, t2}
  }

  /** The pairs of one term with others. */
  ghost function With(x: Term, ts: set<Term>): set<set<Term>> {
    set t | t in ts :: {x, t}
  }

  lemma {:induction false} GroupPairsCount(vs: set<Term>, cs: set<Term>)
    requires vs !! cs
    ensures |PairsOf(vs, cs)| == GroupPairs(AppSet(cs, vs))
  {
    if vs == {} {
      assert PairsOf(vs, cs) == {};
    } else {
      var x :| x in vs;
      var ws := vs - {x};
      GroupPairsCount(ws, cs);
      PairsSplit(vs, cs, x);
      WithSize(x, ws + cs);
      assert |vs| == |ws| + 1 && |ws + cs| == |ws| + |cs|;
      OneMorePairs(|cs|, |ws|);
    }
  }

  lemma OneMorePairs(c: nat, n: nat)
    ensures Pairs(n + 1) + c * (n + 1) == Pairs(n) + c * n + n + c
  {}

  lemma PairsSplit(vs: set<Term>, cs: set<Term>, x: Term)
    requires x in vs && vs !! cs
    ensures PairsOf(vs, cs) == PairsOf(vs - {x}, cs) + With(x, vs - {x} + cs)
    ensures PairsOf(vs - {x}, cs) !! With(x, vs - {x} + cs)
  {
    var ws := vs - {x};
    forall t1, t2 | t1 in vs && t2 in vs + cs && t1 != t2
      ensures {t1, t2} in PairsOf(ws, cs) + With(x, ws + cs)
    {
      if t1 == x {
        assert t2 in ws + cs;
      } else if t2 == x {
        assert {t1, t2} == {x, t1};
      }
    }
    forall t | t in ws + cs ensures {x, t} in PairsOf(vs, cs) {}
    forall p | p in PairsOf(ws, cs) ensures x !in p {}
    forall p | p in With(x, ws + cs) ensures x in p {}
  }

  lemma {:induction false} WithSize(x: Term, ts: set<Term>)
    requires x !in ts
    ensures |With(x, ts)| == |ts|
  {
    if ts == {} {
      assert With(x, ts) == {};
    } else {
      var y :| y in ts;
      WithSize(x, ts - {y});
      assert With(x, ts) == With(x, ts - {y}) + {{x, y}};
      assert {x, y} !in With(x, ts - {y}) by {
        forall t | t in ts - {y} ensures {x, t} != {x, y} { assert y !in {x, t}; }
      }
    }
  }

  ghost function TotalPairs(keys: set<nat>, groups: Groups): nat
    requires keys <= groups.Keys
  {
    if keys == {} then 0
    else
      var k :| k in keys;
      GroupPairs(groups[k]) + TotalPairs(keys - {k}, groups)
  }

  lemma {:induction false} TotalPick(keys: set<nat>, groups: Groups, k: nat)
    requires keys <= groups.Keys && k in keys
    ensures TotalPairs(keys, groups) == GroupPairs(groups[k]) + TotalPairs(keys - {k}, groups)
    decreases keys
  {
    var j :| j in keys && TotalPairs(keys, groups) == GroupPairs(groups[j]) + TotalPairs(keys - {j}, groups);
    if j != k {
      TotalPick(keys - {j}, groups, k);
      TotalPick(keys - {k}, groups, j);
      assert keys - {j} - {k} == keys - {k} - {j};
    }
  }

  /** A group that makes the bound infinite. */
  predicate Guarded(ts: AppSet) {
    Bit16(|ts.varArgs|)
  }

  ghost predicate SomeGuarded(groups: Groups) {
    exists k :: k in groups && Guarded(groups[k])
  }

  /** A group whose pairs are counted in full: fewer than 2^17 terms with variable arguments,
      and a 32-bit product. */
  ghost predicate Fits(ts: AppSet) {
    |ts.varArgs| < 0x2_0000 && |ts.constArgs| * |ts.varArgs| < WORD
  }

  ghost predicate SizesAreWords(groups: Groups) {
    forall k | k in groups :: |groups[k].varArgs| < WORD
  }

  ghost predicate AllFit(groups: Groups) {
    forall k | k in groups :: Fits(groups[k])
  }

  /** A 32-bit product. */
  function Product(x: nat, y: nat): nat {
    (x * y) % WORD
  }

  /** What a group without guard adds to the bound. */
  function CountedPairs(ts: AppSet): nat
    requires |ts.varArgs| < WORD
  {
    NChoose2(|ts.varArgs|) + Product(|ts.constArgs|, |ts.varArgs|)
  }

  /** A group without guard counts at most its pairs, and all of them exactly if it fits. */
  lemma CountedPairsExact(ts: AppSet)
    requires |ts.varArgs| < WORD && !Guarded(ts)
    ensures CountedPairs(ts) <= GroupPairs(ts) && (CountedPairs(ts) == GroupPairs(ts) <==> Fits(ts))
    ensures CountedPairs(ts) == Pairs(|ts.varArgs|) % WORD + (|ts.constArgs| * |ts.varArgs|) % WORD
  {
    NChoose2Modular(|ts.varArgs|);
    PairsAroundWord(|ts.varArgs|);
    Wrapped(Pairs(|ts.varArgs|));
    Wrapped(|ts.constArgs| * |ts.varArgs|);
  }

  ghost function TotalCounted(keys: set<nat>, groups: Groups): nat
    requires keys <= groups.Keys && SizesAreWords(groups)
  {
    if keys == {} then 0
    else
      var k :| k in keys;
      CountedPairs(groups[k]) + TotalCounted(keys - {k}, groups)
  }

  lemma {:induction false} CountedPick(keys: set<nat>, groups: Groups, k: nat)
    requires keys <= groups.Keys && SizesAreWords(groups) && k in keys
    ensures TotalCounted(keys, groups) == CountedPairs(groups[k]) + TotalCounted(keys - {k}, groups)
    decreases keys
  {
    var j :| j in keys && TotalCounted(keys, groups) == CountedPairs(groups[j]) + TotalCounted(keys - {j}, groups);
    if j != k {
      CountedPick(keys - {j}, groups, k);
      CountedPick(keys - {k}, groups, j);
      assert keys - {j} - {k} == keys - {k} - {j};
    }
  }

  lemma {:induction false} TotalCountedExact(keys: set<nat>, groups: Groups)
    requires keys <= groups.Keys && SizesAreWords(groups) && forall k | k in keys :: !Guarded(groups[k])
    ensures TotalCounted(keys, groups) <= TotalPairs(keys, groups)
    ensures TotalCounted(keys, groups) == TotalPairs(keys, groups) <==> forall k | k in keys :: Fits(groups[k])
    decreases keys
  {
    if keys != {} {
      var k :| k in keys;
      CountedPick(keys, groups, k);
      TotalPick(keys, groups, k);
      TotalCountedExact(keys - {k}, groups);
      CountedPairsExact(groups[k]);
    }
  }

  /** The bound, whatever the order of the groups. */
  ghost function LemmaBound(occs1: Groups, occs2: Groups): Amount
    requires SizesAreWords(occs1) && SizesAreWords(occs2)
  {
    if SomeGuarded(occs1) || SomeGuarded(occs2) then Infinite
    else Finite(TotalCounted(occs1.Keys, occs1) + TotalCounted(occs2.Keys, occs2))
  }

  /** It is infinite if and only if bit 16 of some group's size is set. */
  lemma LemmaBoundInfinite(occs1: Groups, occs2: Groups)
    requires SizesAreWords(occs1) && SizesAreWords(occs2)
    ensures LemmaBound(occs1, occs2).Infinite? <==>
            (exists k :: k in occs1 && NChoose2Chk(|occs1[k].varArgs|).Infinite?)
            || (exists k :: k in occs2 && NChoose2Chk(|occs2[k].varArgs|).Infinite?)
  {
    GuardedCount(occs1);
    GuardedCount(occs2);
  }

  lemma GuardedCount(occs: Groups)
    requires SizesAreWords(occs)
    ensures SomeGuarded(occs) <==> exists k :: k in occs && NChoose2Chk(|occs[k].varArgs|).Infinite?
  {
    if k :| k in occs && Guarded(occs[k]) { assert NChoose2Chk(|occs[k].varArgs|).Infinite?; }
  }

  /** The bound is one if and only if it is infinite or every group fits; otherwise it is
      too small. */
  lemma LemmaBoundExact(occs1: Groups, occs2: Groups)
    requires SizesAreWords(occs1) && SizesAreWords(occs2)
    ensures AtLeast(LemmaBound(occs1, occs2), TotalPairs(occs1.Keys, occs1) + TotalPairs(occs2.Keys, occs2)) <==>
            LemmaBound(occs1, occs2).Infinite? || (AllFit(occs1) == true && AllFit(occs2) == true)
  {
    if !SomeGuarded(occs1) && !SomeGuarded(occs2) {
      CountedExact(occs1);
      CountedExact(occs2);
    }
  }

  /** Groups of ordinary size: fewer than 2^16 terms with variable arguments, and a 32-bit
      product. */
  ghost predicate Ordinary(groups: Groups) {
    forall k | k in groups :: |groups[k].varArgs| < 0x1_0000 && |groups[k].constArgs| * |groups[k].varArgs| < WORD
  }

  /** Then the bound is the number of pairs. */
  lemma OrdinaryBound(occs1: Groups, occs2: Groups)
    requires Ordinary(occs1) && Ordinary(occs2)
    ensures SizesAreWords(occs1) && SizesAreWords(occs2)
    ensures LemmaBound(occs1, occs2) == Finite(TotalPairs(occs1.Keys, occs1) + TotalPairs(occs2.Keys, occs2))
  {
    CountedExact(occs1);
    CountedExact(occs2);
  }

  lemma CountedExact(occs: Groups)
    requires SizesAreWords(occs) && !SomeGuarded(occs)
    ensures TotalCounted(occs.Keys, occs) <= TotalPairs(occs.Keys, occs)
    ensures TotalCounted(occs.Keys, occs) == TotalPairs(occs.Keys, occs) <==> AllFit(occs) == true
  {
    TotalCountedExact(occs.Keys, occs);
  }

  method CalculateLemmaBound(occs1: Groups, occs2: Groups) returns (total: Amount)
    requires SizesAreWords(occs1) && SizesAreWords(occs2)
    ensures total == LemmaBound(occs1, occs2)
    ensures Ordinary(occs1) && Ordinary(occs2) ==>
              total == Finite(TotalPairs(occs1.Keys, occs1) + TotalPairs(occs2.Keys, occs2))
  {
    if Ordinary(occs1) && Ordinary(occs2) {
      OrdinaryBound(occs1, occs2);
    }
    total := AddBounds(Finite(0), occs1);
    total := AddBounds(total, occs2);
  }

  method AddBounds(start: Amount, occs: Groups) returns (total: Amount)
    requires SizesAreWords(occs)
    ensures total.Infinite? <==> start.Infinite? || SomeGuarded(occs)
    ensures total.Finite? ==> total.n == start.n + TotalCounted(occs.Keys, occs)
  {
    total := start;
    var rest := occs.Keys;
    while rest != {}
      invariant rest <= occs.Keys
      invariant total.Infinite? <==> start.Infinite? || exists k :: k in occs && k !in rest && Guarded(occs[k])
      invariant total.Finite? ==> total.n + TotalCounted(rest, occs) == start.n + TotalCounted(occs.Keys, occs)
      decreases rest
    {
      var k :| k in rest;
      CountedPick(rest, occs, k);
      total := Plus(total, NChoose2Chk(|occs[k].varArgs|));
      total := Plus(total, Finite(Product(|occs[k].constArgs|, |occs[k].varArgs|)));
      rest := rest - {k};
    }
  }
}
