/** The model converter of ackr_model_converter.cpp: from a model of the reduced formula it
    rebuilds function tables and arrays, so that the original formulas hold. */
module ModelConverter {
  import opened Terms
  import opened Ackr

  /** An array as the converter builds it. */
  datatype ArrayValue = ConstArr(v: Value) | Store(a: ArrayValue, idx: seq<Value>, v: Value)

  function Denote(th: Theory, e: ArrayValue): Value {
    match e
    case ConstArr(v) => th.constArray(v)
    case Store(a, idx, v) => th.store(Denote(th, a), idx, v)
  }

  function Lookup(e: ArrayValue, idx: seq<Value>): Value {
    match e
    case ConstArr(v) => v
    case Store(a, i, v) => if i == idx then v else Lookup(a, idx)
  }

  function DefaultOf(e: ArrayValue): Value {
    match e
    case ConstArr(v) => v
    case Store(a, _, _) => DefaultOf(a)
  }

  lemma {:induction false} LookupDenotes(th: Theory, e: ArrayValue, idx: seq<Value>)
    requires Arrays(th)
    ensures th.select(Denote(th, e), idx) == Lookup(e, idx)
  {
    match e
    case ConstArr(_) =>
    case Store(a, _, _) => LookupDenotes(th, a, idx);
  }

  type Tables = map<nat, map<seq<Value>, Value>>
  type ArrayTable = map<nat, ArrayValue>

  ghost predicate Candidates(s: map<Term, nat>) {
    forall t | t in s :: KeyOf(t) != NoKey
  }

  /** t is an abstracted term whose constant has been seen. */
  ghost predicate Seen(info: Info, seen: set<nat>, t: Term) {
    t in info.t2c && info.t2c[t] in seen
  }

  /** A table entry stems from a term seen. */
  ghost predicate Entry(th: Theory, info: Info, src: Model, seen: set<nat>, k: Key, args: seq<Value>, v: Value) {
    exists t :: Origin(th, info, src, seen, k, args, v, t)
  }

  ghost predicate Origin(th: Theory, info: Info, src: Model, seen: set<nat>, k: Key, args: seq<Value>, v: Value,
                         t: Term) {
    && Seen(info, seen, t) && KeyOf(t) == k && v == ConstOf(src, info.t2c[t])
    && args == Index(th, info, src, t)
  }

  /** Where a term's value is stored: under its argument values, without the array. */
  function Index(th: Theory, info: Info, src: Model, t: Term): seq<Value> {
    var vs := ArgValues(th, info.t2c, src, t);
    if KeyOf(t).ArrayKey? then vs[1..] else vs
  }

  ghost predicate TablesOk(th: Theory, info: Info, src: Model, seen: set<nat>, tables: Tables) {
    && (forall f, args | f in tables && args in tables[f] ::
          Entry(th, info, src, seen, FunKey(f), args, tables[f][args]))
    && (forall f | f in tables :: Active(info.t2c, FunKey(f)))
    && (forall t | Seen(info, seen, t) && KeyOf(t).FunKey? :: t.f in tables && Index(th, info, src, t) in tables[t.f])
  }

  ghost predicate StoresOk(th: Theory, info: Info, src: Model, seen: set<nat>, c: nat, e: ArrayValue) {
    match e
    case ConstArr(_) => true
    case Store(a, idx, v) => Entry(th, info, src, seen, ArrayKey(c), idx, v) && StoresOk(th, info, src, seen, c, a)
  }

  ghost predicate ArraysOk(th: Theory, info: Info, src: Model, seen: set<nat>, arrays: ArrayTable) {
    && (forall c | c in arrays :: StoresOk(th, info, src, seen, c, arrays[c]) && Active(info.t2c, ArrayKey(c)))
    && (forall t | Seen(info, seen, t) && KeyOf(t).ArrayKey? ::
          KeyOf(t).c in arrays && Lookup(arrays[KeyOf(t).c], Index(th, info, src, t)) == ConstOf(src, info.t2c[t]))
  }

  lemma {:induction false} StoresOkMono(th: Theory, info: Info, src: Model, seen: set<nat>, seen': set<nat>, c: nat,
                                        e: ArrayValue)
    requires seen <= seen' && StoresOk(th, info, src, seen, c, e)
    ensures StoresOk(th, info, src, seen', c, e)
  {
    match e
    case ConstArr(_) =>
    case Store(a, idx, v) =>
      EntryMono(th, info, src, seen, seen', ArrayKey(c), idx, v);
      StoresOkMono(th, info, src, seen, seen', c, a);
  }

  lemma EntryMono(th: Theory, info: Info, src: Model, seen: set<nat>, seen': set<nat>, k: Key, args: seq<Value>,
                  v: Value)
    requires seen <= seen' && Entry(th, info, src, seen, k, args, v)
    ensures Entry(th, info, src, seen', k, args, v)
  {
    var t :| Origin(th, info, src, seen, k, args, v, t);
    assert Origin(th, info, src, seen', k, args, v, t);
  }

  /** Entries under the same arguments agree, by congruence. */
  lemma EntriesAgree(th: Theory, info: Info, src: Model, seen: set<nat>, args: seq<Value>, v: Value, t: Term)
    requires AllCongruent(th, info.t2c, src) && Candidates(info.t2c) && t in info.t2c && KeyOf(t) != NoKey
             && args == Index(th, info, src, t)
    requires Entry(th, info, src, seen, KeyOf(t), args, v)
    ensures v == ConstOf(src, info.t2c[t])
  {
    var u :| Origin(th, info, src, seen, KeyOf(t), args, v, u);
    SameIndex(th, info, src, t, u);
    assert Congruent(th, info.t2c, src, t, u);
  }

  lemma SameIndex(th: Theory, info: Info, src: Model, t: Term, u: Term)
    requires KeyOf(t) == KeyOf(u) != NoKey && t in info.t2c && u in info.t2c
    requires Index(th, info, src, t) == Index(th, info, src, u)
    requires Candidates(info.t2c)
    ensures ArgValues(th, info.t2c, src, t) == ArgValues(th, info.t2c, src, u)
  {
    var vs, ws := ArgValues(th, info.t2c, src, t), ArgValues(th, info.t2c, src, u);
    if KeyOf(t).ArrayKey? {
      assert KeyOf(Kids(t)[0]) == NoKey && Kids(t)[0] == Kids(u)[0];
      assert vs[0] == Eval(th, AbstractAll(Kids(t), info.t2c)[0], src);
      assert ws[0] == Eval(th, AbstractAll(Kids(u), info.t2c)[0], src);
      assert vs == [vs[0]] + vs[1..] && ws == [ws[0]] + ws[1..];
    }
  }

  /** Looking up a seen term's index finds its value, or the default if nothing is stored. */
  lemma {:induction false} LookupAgrees(th: Theory, info: Info, src: Model, seen: set<nat>, c: nat, e: ArrayValue,
                                        t: Term)
    requires AllCongruent(th, info.t2c, src) && Candidates(info.t2c) && t in info.t2c && KeyOf(t) == ArrayKey(c)
    requires StoresOk(th, info, src, seen, c, e)
    ensures Lookup(e, Index(th, info, src, t)) in {ConstOf(src, info.t2c[t]), DefaultOf(e)}
  {
    match e
    case ConstArr(_) =>
    case Store(a, idx, v) =>
      if idx == Index(th, info, src, t) { EntriesAgree(th, info, src, seen, idx, v, t); }
      else { LookupAgrees(th, info, src, seen, c, a, t); }
  }

  /** The function tables after a term's entry: an entry already present is kept. */
  function WithEntry(tables: Tables, f: nat, args: seq<Value>, v: Value): Tables {
    var table := if f in tables then tables[f] else map[];
    tables[f := if args in table then table else table[args := v]]
  }

  lemma FunEntryOk(th: Theory, info: Info, src: Model, seen: set<nat>, tables: Tables, t: Term)
    requires TablesOk(th, info, src, seen, tables) && Inverse(info) && t in info.t2c && KeyOf(t).FunKey?
    ensures var c := info.t2c[t];
      TablesOk(th, info, src, seen + {c}, WithEntry(tables, t.f, Index(th, info, src, t), ConstOf(src, c)))
  {
    var c, args := info.t2c[t], Index(th, info, src, t);
    var seen', tables' := seen + {c}, WithEntry(tables, t.f, args, ConstOf(src, c));
    forall f, key | f in tables' && key in tables'[f]
      ensures Entry(th, info, src, seen', FunKey(f), key, tables'[f][key])
    {
      if f in tables && key in tables[f] {
        EntryMono(th, info, src, seen, seen', FunKey(f), key, tables[f][key]);
      } else {
        assert Origin(th, info, src, seen', FunKey(f), key, tables'[f][key], t);
      }
    }
    FunEntryPresent(th, info, src, seen, tables, t);
  }

  lemma FunEntryPresent(th: Theory, info: Info, src: Model, seen: set<nat>, tables: Tables, t: Term)
    requires TablesOk(th, info, src, seen, tables) && Inverse(info) && t in info.t2c && KeyOf(t).FunKey?
    ensures var tables' := WithEntry(tables, t.f, Index(th, info, src, t), ConstOf(src, info.t2c[t]));
      && (forall f | f in tables' :: Active(info.t2c, FunKey(f)))
      && forall u | Seen(info, seen + {info.t2c[t]}, u) && KeyOf(u).FunKey? ::
           u.f in tables' && Index(th, info, src, u) in tables'[u.f]
  {
    var tables' := WithEntry(tables, t.f, Index(th, info, src, t), ConstOf(src, info.t2c[t]));
    forall u | Seen(info, seen + {info.t2c[t]}, u) && KeyOf(u).FunKey?
      ensures u.f in tables' && Index(th, info, src, u) in tables'[u.f]
    {
      if !Seen(info, seen, u) { assert u == t; }
    }
  }

  ghost predicate Inverse(info: Info) {
    && (forall t | t in info.t2c :: info.t2c[t] in info.c2t && info.c2t[info.t2c[t]] == t)
    && (forall c | c in info.c2t :: info.c2t[c] in info.t2c && info.t2c[info.c2t[c]] == c)
  }

  /** The arrays after a term's entry: the first value of an array is its default, and a
      value equal to the default is not stored. */
  function WithStore(arrays: ArrayTable, c: nat, idx: seq<Value>, v: Value): ArrayTable {
    if c !in arrays then arrays[c := ConstArr(v)]
    else if DefaultOf(arrays[c]) == v then arrays
    else arrays[c := Store(arrays[c], idx, v)]
  }

  lemma ArrayEntryOk(th: Theory, info: Info, src: Model, seen: set<nat>, arrays: ArrayTable, t: Term)
    requires ArraysOk(th, info, src, seen, arrays) && Inverse(info) && t in info.t2c && KeyOf(t).ArrayKey?
    requires AllCongruent(th, info.t2c, src) && Candidates(info.t2c)
    ensures var c := info.t2c[t];
      ArraysOk(th, info, src, seen + {c}, WithStore(arrays, KeyOf(t).c, Index(th, info, src, t), ConstOf(src, c)))
  {
    var A, idx, v := KeyOf(t).c, Index(th, info, src, t), ConstOf(src, info.t2c[t]);
    var seen', arrays' := seen + {info.t2c[t]}, WithStore(arrays, A, idx, v);
    forall c | c in arrays' ensures StoresOk(th, info, src, seen', c, arrays'[c]) && Active(info.t2c, ArrayKey(c)) {
      if c in arrays { StoresOkMono(th, info, src, seen, seen', c, arrays[c]); }
      if c == A { assert Origin(th, info, src, seen', ArrayKey(c), idx, v, t); }
    }
    forall u | Seen(info, seen', u) && KeyOf(u).ArrayKey?
      ensures KeyOf(u).c in arrays' && Lookup(arrays'[KeyOf(u).c], Index(th, info, src, u)) == ConstOf(src, info.t2c[u])
    {
      if KeyOf(u) == ArrayKey(A) {
        ArrayEntryFound(th, info, src, seen, arrays, t, u);
      } else {
        assert Seen(info, seen, u);
      }
    }
  }

  /** After the store, terms of the same array are found under their indices. */
  lemma ArrayEntryFound(th: Theory, info: Info, src: Model, seen: set<nat>, arrays: ArrayTable, t: Term, u: Term)
    requires ArraysOk(th, info, src, seen, arrays) == true && Inverse(info) && t in info.t2c && KeyOf(t).ArrayKey?
    requires AllCongruent(th, info.t2c, src) == true && Candidates(info.t2c)
    requires Seen(info, seen + {info.t2c[t]}, u) && KeyOf(u) == KeyOf(t)
    ensures var arrays' := WithStore(arrays, KeyOf(t).c, Index(th, info, src, t), ConstOf(src, info.t2c[t]));
            KeyOf(u).c in arrays' && Lookup(arrays'[KeyOf(u).c], Index(th, info, src, u)) == ConstOf(src, info.t2c[u])
  {
    var A := KeyOf(t).c;
    if A in arrays { LookupAgrees(th, info, src, seen, A, arrays[A], t); }
    if Index(th, info, src, u) == Index(th, info, src, t) {
      SameIndex(th, info, src, t, u);
      assert Congruent(th, info.t2c, src, t, u);
    } else {
      assert u != t;
      assert Seen(info, seen, u);
    }
  }

  function FunFrom(table: map<seq<Value>, Value>): Fun {
    args => if args in table then table[args] else DEFAULT
  }

  /** The constants that abstract nothing keep their values. */
  function Kept(info: Info, consts: map<nat, Value>): map<nat, Value> {
    map c | c in consts && c !in info.c2t :: consts[c]
  }

  /** The model put together from the parts. */
  function Assembled(th: Theory, consts: map<nat, Value>, funs: map<nat, Fun>, tables: Tables,
                     arrays: ArrayTable): Model {
    Model(
      consts + map c | c in arrays :: Denote(th, arrays[c]),
      funs + map f | f in tables :: FunFrom(tables[f]))
  }

  function Converted(th: Theory, info: Info, src: Model, tables: Tables, arrays: ArrayTable): Model {
    Assembled(th, Kept(info, src.consts), src.funs, tables, arrays)
  }

  /** With all constants seen, the parts make a model that interprets every abstracted term
      by its constant's value. */
  lemma ConvertedRebuilds(th: Theory, info: Info, src: Model, tables: Tables, arrays: ArrayTable)
    requires Arrays(th) && Inverse(info) && Candidates(info.t2c) && AllCongruent(th, info.t2c, src)
    requires forall c | c in info.c2t :: c in src.consts
    requires TablesOk(th, info, src, src.consts.Keys, tables) && ArraysOk(th, info, src, src.consts.Keys, arrays)
    ensures Rebuilt(th, info, src, Converted(th, info, src, tables, arrays))
  {
    ConvertedFuns(th, info, src, tables, arrays);
    ConvertedArrays(th, info, src, tables, arrays);
    ConvertedRest(th, info, src, tables, arrays);
  }

  lemma ConvertedFuns(th: Theory, info: Info, src: Model, tables: Tables, arrays: ArrayTable)
    requires Inverse(info) && Candidates(info.t2c) && AllCongruent(th, info.t2c, src)
    requires forall c | c in info.c2t :: c in src.consts
    requires TablesOk(th, info, src, src.consts.Keys, tables)
    ensures RebuiltFuns(th, info, src, Converted(th, info, src, tables, arrays))
  {
    var m := Converted(th, info, src, tables, arrays);
    forall t | t in info.t2c && KeyOf(t).FunKey?
      ensures FunOf(m, t.f)(ArgValues(th, info.t2c, src, t)) == ConstOf(src, info.t2c[t])
    {
      var args := Index(th, info, src, t);
      assert Seen(info, src.consts.Keys, t);
      assert args in tables[t.f];
      EntriesAgree(th, info, src, src.consts.Keys, args, tables[t.f][args], t);
    }
  }

  lemma ConvertedArrays(th: Theory, info: Info, src: Model, tables: Tables, arrays: ArrayTable)
    requires Arrays(th) && Inverse(info) && forall c | c in info.c2t :: c in src.consts
    requires ArraysOk(th, info, src, src.consts.Keys, arrays)
    ensures RebuiltArrays(th, info, src, Converted(th, info, src, tables, arrays))
  {
    var m := Converted(th, info, src, tables, arrays);
    forall t | t in info.t2c && KeyOf(t).ArrayKey? ensures RebuiltSelection(th, info, src, m, t) {
      ConvertedArray(th, info, src, tables, arrays, t);
    }
  }

  lemma ConvertedArray(th: Theory, info: Info, src: Model, tables: Tables, arrays: ArrayTable, t: Term)
    requires Arrays(th) && Inverse(info) && forall c | c in info.c2t :: c in src.consts
    requires ArraysOk(th, info, src, src.consts.Keys, arrays) && t in info.t2c && KeyOf(t).ArrayKey?
    ensures RebuiltSelection(th, info, src, Converted(th, info, src, tables, arrays), t)
  {
    assert Seen(info, src.consts.Keys, t);
    LookupDenotes(th, arrays[KeyOf(t).c], Index(th, info, src, t));
  }

  lemma ConvertedRest(th: Theory, info: Info, src: Model, tables: Tables, arrays: ArrayTable)
    requires TablesOk(th, info, src, src.consts.Keys, tables) && ArraysOk(th, info, src, src.consts.Keys, arrays)
    ensures RebuiltRest(info, src, Converted(th, info, src, tables, arrays))
  {}

  lemma ArgValue(th: Theory, info: Info, src: Model, t: Term, i: nat)
    requires i < |Kids(t)|
    ensures ArgValues(th, info.t2c, src, t)[i] == Eval(th, Abstract(Kids(t)[i], info.t2c), src)
  {
    assert AbstractAll(Kids(t), info.t2c)[i] == Abstract(Kids(t)[i], info.t2c);
  }

  class Converter {
    const info: Info
    var interpretations: Tables
    var arrayInterpretations: ArrayTable

    constructor (info: Info)
      ensures this.info == info && interpretations == map[] && arrayInterpretations == map[]
    {
      this.info, interpretations, arrayInterpretations := info, map[], map[];
    }

    method AddFunEntry(th: Theory, source: Model, term: Term, value: Value)
      requires KeyOf(term).FunKey?
      modifies this`interpretations
      ensures interpretations == WithEntry(old(interpretations), term.f, Index(th, info, source, term), value)
    {
      if term.f !in interpretations {
        interpretations := interpretations[term.f := map[]];
      }
      var args := EvalAll(th, AbstractAll(term.args, info.t2c), source);
      var fi := interpretations[term.f];
      if args !in fi {
        interpretations := interpretations[term.f := fi[args := value]];
      }
    }

    method AddArrayEntry(th: Theory, source: Model, term: Term, value: Value)
      requires KeyOf(term).ArrayKey?
      modifies this`arrayInterpretations
      ensures arrayInterpretations
           == WithStore(old(arrayInterpretations), KeyOf(term).c, Index(th, info, source, term), value)
    {
      var A := term.args[0].c;
      var e;
      if A !in arrayInterpretations {
        e := ConstArr(value);
      } else {
        e := arrayInterpretations[A];
        var c := e;
        while c.Store?
          invariant DefaultOf(c) == DefaultOf(e)
          decreases c
        {
          c := c.a;
        }
        if c.v == value {
          return;
        }
        ghost var vs := ArgValues(th, info.t2c, source, term);
        var args := [];
        for i := 1 to |term.args|
          invariant arrayInterpretations == old(arrayInterpretations)
          invariant |args| == i - 1 && forall j | 1 <= j < i :: args[j - 1] == vs[j]
        {
          ArgValue(th, info, source, term, i);
          args := args + [Eval(th, Abstract(term.args[i], info.t2c), source)];
        }
        assert args == vs[1..] == Index(th, info, source, term);
        e := Store(e, args, value);
      }
      arrayInterpretations := arrayInterpretations[A := e];
    }

    /** One constant of the source model. */
    method ConvertConstant(th: Theory, source: Model, c: nat, consts: map<nat, Value>, ghost seen: set<nat>)
      returns (consts': map<nat, Value>)
      requires Inverse(info) && Candidates(info.t2c) && AllCongruent(th, info.t2c, source) && c in source.consts
      requires TablesOk(th, info, source, seen, interpretations)
               && ArraysOk(th, info, source, seen, arrayInterpretations)
      modifies this
      ensures consts' == if c in info.c2t then consts else consts[c := source.consts[c]]
      ensures TablesOk(th, info, source, seen + {c}, interpretations) == true
      ensures ArraysOk(th, info, source, seen + {c}, arrayInterpretations) == true
    {
      var value := source.consts[c];
      consts' := consts;
      if c !in info.c2t {
        consts' := consts[c := value];
        NothingSeen(th, info, source, seen, c, interpretations, arrayInterpretations);
      } else {
        var term := info.c2t[c];
        if KeyOf(term).ArrayKey? {
          ArrayEntryOk(th, info, source, seen, arrayInterpretations, term);
          TablesSkip(th, info, source, seen, interpretations, term);
          AddArrayEntry(th, source, term, value);
        } else {
          FunEntryOk(th, info, source, seen, interpretations, term);
          ArraysSkip(th, info, source, seen, arrayInterpretations, term);
          AddFunEntry(th, source, term, value);
        }
      }
    }

    /** The new model gives every abstracted term the value of its constant. */
    method ConvertConstants(th: Theory, source: Model) returns (destination: Model)
      requires Arrays(th) && Inverse(info) && Candidates(info.t2c) && AllCongruent(th, info.t2c, source)
      requires forall c | c in info.c2t :: c in source.consts
      requires interpretations == map[] && arrayInterpretations == map[]
      modifies this
      ensures Rebuilt(th, info, source, destination) == true
    {
      var consts: map<nat, Value> := map[];
      var rest := source.consts.Keys;
      ghost var seen: set<nat> := {};
      while rest != {}
        invariant rest <= source.consts.Keys && seen == source.consts.Keys - rest
        invariant consts.Keys == seen - info.c2t.Keys && forall c | c in consts :: consts[c] == source.consts[c]
        invariant TablesOk(th, info, source, seen, interpretations) == true
        invariant ArraysOk(th, info, source, seen, arrayInterpretations) == true
        decreases rest
      {
        var c :| c in rest;
        consts := ConvertConstant(th, source, c, consts, seen);
        rest, seen := rest - {c}, seen + {c};
      }
      assert seen == source.consts.Keys;
      destination := Register(th, source, consts);
    }

    /** Puts the constants, arrays and function tables into the new model. */
    method Register(th: Theory, source: Model, consts: map<nat, Value>) returns (destination: Model)
      requires Arrays(th) && Inverse(info) && Candidates(info.t2c) && AllCongruent(th, info.t2c, source)
      requires forall c | c in info.c2t :: c in source.consts
      requires TablesOk(th, info, source, source.consts.Keys, interpretations)
      requires ArraysOk(th, info, source, source.consts.Keys, arrayInterpretations)
      requires consts.Keys == source.consts.Keys - info.c2t.Keys
               && forall c | c in consts :: consts[c] == source.consts[c]
      ensures Rebuilt(th, info, source, destination) == true
    {
      assert consts == Kept(info, source.consts);
      destination := Assembled(th, consts, source.funs, interpretations, arrayInterpretations);
      ConvertedRebuilds(th, info, source, interpretations, arrayInterpretations);
    }
  }

  lemma TablesSkip(th: Theory, info: Info, src: Model, seen: set<nat>, tables: Tables, t: Term)
    requires TablesOk(th, info, src, seen, tables) && Inverse(info) && t in info.t2c && !KeyOf(t).FunKey?
    ensures TablesOk(th, info, src, seen + {info.t2c[t]}, tables)
  {
    var seen' := seen + {info.t2c[t]};
    forall f, key | f in tables && key in tables[f]
      ensures Entry(th, info, src, seen', FunKey(f), key, tables[f][key])
    {
      EntryMono(th, info, src, seen, seen', FunKey(f), key, tables[f][key]);
    }
    forall u | Seen(info, seen', u) && KeyOf(u).FunKey?
      ensures u.f in tables && Index(th, info, src, u) in tables[u.f]
    {
      assert u != t;
      assert Seen(info, seen, u);
    }
  }

  lemma ArraysSkip(th: Theory, info: Info, src: Model, seen: set<nat>, arrays: ArrayTable, t: Term)
    requires ArraysOk(th, info, src, seen, arrays) && Inverse(info) && t in info.t2c && !KeyOf(t).ArrayKey?
    ensures ArraysOk(th, info, src, seen + {info.t2c[t]}, arrays)
  {
    var seen' := seen + {info.t2c[t]};
    forall c | c in arrays ensures StoresOk(th, info, src, seen', c, arrays[c]) {
      StoresOkMono(th, info, src, seen, seen', c, arrays[c]);
    }
    forall u | Seen(info, seen', u) && KeyOf(u).ArrayKey?
      ensures KeyOf(u).c in arrays && Lookup(arrays[KeyOf(u).c], Index(th, info, src, u)) == ConstOf(src, info.t2c[u])
    {
      assert u != t;
      assert Seen(info, seen, u);
    }
  }

  lemma NothingSeen(th: Theory, info: Info, src: Model, seen: set<nat>, c: nat, tables: Tables, arrays: ArrayTable)
    requires TablesOk(th, info, src, seen, tables) && ArraysOk(th, info, src, seen, arrays) && Inverse(info)
             && c !in info.c2t
    ensures TablesOk(th, info, src, seen + {c}, tables) && ArraysOk(th, info, src, seen + {c}, arrays)
  {
    var seen' := seen + {c};
    forall t | Seen(info, seen', t) ensures Seen(info, seen, t) {}
    forall f, key | f in tables && key in tables[f]
      ensures Entry(th, info, src, seen', FunKey(f), key, tables[f][key])
    {
      EntryMono(th, info, src, seen, seen', FunKey(f), key, tables[f][key]);
    }
    forall a | a in arrays ensures StoresOk(th, info, src, seen', a, arrays[a]) {
      StoresOkMono(th, info, src, seen, seen', a, arrays[a]);
    }
  }

  // ---------------------------------------------------------------- existence

  /** A model that mentions every abstraction constant, with the same meaning. */
  function Completed(info: Info, m: Model): Model {
    m.(consts := (map c | c in info.c2t :: DEFAULT) + m.consts)
  }

  /** The tables the converter builds from the constants seen exist. */
  lemma {:induction false} PartsExist(th: Theory, info: Info, src: Model, seen: set<nat>) returns (tables: Tables,
                                      arrays: ArrayTable)
    requires Inverse(info) && Candidates(info.t2c) && AllCongruent(th, info.t2c, src)
    ensures TablesOk(th, info, src, seen, tables) && ArraysOk(th, info, src, seen, arrays)
    decreases seen
  {
    if seen == {} {
      tables, arrays := map[], map[];
    } else {
      var c :| c in seen;
      tables, arrays := PartsExist(th, info, src, seen - {c});
      assert seen - {c} + {c} == seen;
      if c !in info.c2t {
        NothingSeen(th, info, src, seen - {c}, c, tables, arrays);
      } else {
        var t := info.c2t[c];
        if KeyOf(t).ArrayKey? {
          ArrayEntryOk(th, info, src, seen - {c}, arrays, t);
          TablesSkip(th, info, src, seen - {c}, tables, t);
          arrays := WithStore(arrays, KeyOf(t).c, Index(th, info, src, t), ConstOf(src, c));
        } else {
          FunEntryOk(th, info, src, seen - {c}, tables, t);
          ArraysSkip(th, info, src, seen - {c}, arrays, t);
          tables := WithEntry(tables, t.f, Index(th, info, src, t), ConstOf(src, c));
        }
      }
    }
  }

  lemma ConversionExists(th: Theory, info: Info, src: Model) returns (m: Model)
    requires Arrays(th) && Inverse(info) && Candidates(info.t2c) && AllCongruent(th, info.t2c, src)
    requires forall c | c in info.c2t :: c in src.consts
    ensures Rebuilt(th, info, src, m)
  {
    var tables, arrays := PartsExist(th, info, src, src.consts.Keys);
    ConvertedRebuilds(th, info, src, tables, arrays);
    m := Converted(th, info, src, tables, arrays);
  }
}
