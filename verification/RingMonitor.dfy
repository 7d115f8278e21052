/** The decentralised monitors of monitor.cpp: each evaluates its own subformula and passes
    what it knows around a ring. */
module RingMonitor {

  // ---------------------------------------------------------------- subformulas

  /** The value of o0 op1 o1 op2 o2 ..., from the left; whatever is not "and" is "or". */
  function Fold(ops: seq<string>, obs: seq<bool>): bool
    requires |obs| > 0 && |ops| >= |obs| - 1
    decreases |obs|
  {
    var k := |obs| - 1;
    if k == 0 then obs[0]
    else if ops[k - 1] == "and" then obs[k] && Fold(ops, obs[..k])
    else obs[k] || Fold(ops, obs[..k])
  }

  /** The observation at i makes the formula true: it starts an alternative, and no later
      conjunct is false. */
  ghost predicate Decides(ops: seq<string>, obs: seq<bool>, i: nat)
    requires |ops| >= |obs| - 1
  {
    && i < |obs| && obs[i] && (i > 0 ==> ops[i - 1] != "and")
    && forall j | i < j < |obs| && ops[j - 1] == "and" :: obs[j]
  }

  /** A verdict is true exactly when some observation decides it. */
  lemma {:induction false} FoldMeaning(ops: seq<string>, obs: seq<bool>)
    requires |obs| > 0 && |ops| >= |obs| - 1
    ensures Fold(ops, obs) <==> exists i :: Decides(ops, obs, i)
    decreases |obs|
  {
    var k := |obs| - 1;
    if k > 0 {
      var init := obs[..k];
      FoldMeaning(ops, init);
      if i :| Decides(ops, init, i) && (ops[k - 1] == "and" ==> obs[k]) {
        assert Decides(ops, obs, i);
      }
      if ops[k - 1] != "and" && obs[k] { assert Decides(ops, obs, k); }
      if i: nat :| i < k && Decides(ops, obs, i) {
        assert Decides(ops, init, i);
      }
    } else if obs[0] {
      assert Decides(ops, obs, 0);
    }
  }

  // ---------------------------------------------------------------- the ring as a value

  /** What one monitor holds: verdicts, and which of them it has received or computed. */
  datatype Node = Node(verdicts: seq<bool>, known: seq<bool>)

  type Ring = seq<Node>

  datatype Event = Evaluate(i: nat) | Share(i: nat)

  predicate Sized(r: Ring) {
    |r| > 0 && forall i | 0 <= i < |r| :: |r[i].verdicts| == |r[i].known| == |r|
  }

  /** The next monitor in the ring: (i + 1) % n. */
  function Next(i: nat, n: nat): nat
    requires i < n
  {
    if i + 1 == n then 0 else i + 1
  }

  lemma {:induction false} NextModulo(i: nat, n: nat)
    requires i < n
    ensures Next(i, n) == (i + 1) % n
  {}

  /** The receiver takes over every verdict the sender knows. */
  function Merged(sender: Node, receiver: Node): (r: Node)
    requires |sender.verdicts| == |sender.known| == |receiver.verdicts| == |receiver.known|
    ensures |r.verdicts| == |r.known| == |sender.known|
    ensures forall c | 0 <= c < |r.known| :: r.known[c] == (sender.known[c] || receiver.known[c])
    ensures forall c | 0 <= c < |r.known| ::
      r.verdicts[c] == if sender.known[c] then sender.verdicts[c] else receiver.verdicts[c]
  {
    var n := |sender.known|;
    Node(seq(n, c requires 0 <= c < n => if sender.known[c] then sender.verdicts[c] else receiver.verdicts[c]),
         seq(n, c requires 0 <= c < n => sender.known[c] || receiver.known[c]))
  }

  /** One event; own holds the value of every monitor's subformula. */
  function Apply(r: Ring, own: seq<bool>, e: Event): (r': Ring)
    requires Sized(r) && |own| == |r| && e.i < |r|
    ensures Sized(r') && |r'| == |r|
  {
    match e
    case Evaluate(i) => r[i := Node(r[i].verdicts[i := own[i]], r[i].known[i := true])]
    case Share(i) => r[Next(i, |r|) := Merged(r[i], r[Next(i, |r|)])]
  }

  predicate Within(es: seq<Event>, n: nat) {
    forall k | 0 <= k < |es| :: es[k].i < n
  }

  function Run(r: Ring, own: seq<bool>, es: seq<Event>): (r': Ring)
    requires Sized(r) && |own| == |r| && Within(es, |r|)
    ensures Sized(r') && |r'| == |r|
    decreases |es|
  {
    if |es| == 0 then r else Apply(Run(r, own, es[..|es| - 1]), own, es[|es| - 1])
  }

  lemma {:induction false} RunConcat(r: Ring, own: seq<bool>, es: seq<Event>, fs: seq<Event>)
    requires Sized(r) && |own| == |r| && Within(es, |r|) && Within(fs, |r|)
    ensures Within(es + fs, |r|) && Run(r, own, es + fs) == Run(Run(r, own, es), own, fs)
    decreases |fs|
  {
    if |fs| == 0 {
      assert es + fs == es;
    } else {
      var all := es + fs;
      assert all[..|all| - 1] == es + fs[..|fs| - 1];
      RunConcat(r, own, es, fs[..|fs| - 1]);
    }
  }

  // ---------------------------------------------------------------- safety

  /** Every known verdict is its owner's, and every other is false. */
  ghost predicate Honest(r: Ring, own: seq<bool>) {
    && Sized(r) && |own| == |r|
    && forall i, c | 0 <= i < |r| && 0 <= c < |r| :: HonestAt(r[i], own, c)
  }

  ghost predicate HonestAt(node: Node, own: seq<bool>, c: nat)
    requires c < |node.known| && c < |node.verdicts| && c < |own|
  {
    node.verdicts[c] == (node.known[c] && own[c])
  }

  lemma {:induction false} ApplyHonest(r: Ring, own: seq<bool>, e: Event)
    requires Honest(r, own) && e.i < |r|
    ensures Honest(Apply(r, own, e), own)
  {
    var r' := Apply(r, own, e);
    forall i, c | 0 <= i < |r| && 0 <= c < |r| ensures HonestAt(r'[i], own, c) {
      assert HonestAt(r[i], own, c) && HonestAt(r[e.i], own, c);
    }
  }

  /** In every run, whatever the schedule, a known verdict is its owner's. */
  lemma {:induction false} RunHonest(r: Ring, own: seq<bool>, es: seq<Event>)
    requires Honest(r, own) && Within(es, |r|)
    ensures Honest(Run(r, own, es), own)
    decreases |es|
  {
    if |es| > 0 {
      RunHonest(r, own, es[..|es| - 1]);
      ApplyHonest(Run(r, own, es[..|es| - 1]), own, es[|es| - 1]);
    }
  }

  predicate AllTrue(vs: seq<bool>) {
    forall c | 0 <= c < |vs| :: vs[c]
  }

  predicate KnowsAll(node: Node) {
    AllTrue(node.known)
  }

  /** At any point of any run a positive overall verdict is right; with everything known, a
      negative one is too. */
  lemma {:induction false} OverallVerdict(r: Ring, own: seq<bool>, es: seq<Event>, i: nat)
    requires Honest(r, own) && Within(es, |r|) && i < |r|
    ensures AllTrue(Run(r, own, es)[i].verdicts) ==> AllTrue(own)
    ensures KnowsAll(Run(r, own, es)[i]) ==> (AllTrue(Run(r, own, es)[i].verdicts) <==> AllTrue(own))
  {
    RunHonest(r, own, es);
    var r' := Run(r, own, es);
    forall c | 0 <= c < |r| ensures r'[i].verdicts[c] == (r'[i].known[c] && own[c]) { assert HonestAt(r'[i], own, c); }
  }

  // ---------------------------------------------------------------- dissemination

  ghost predicate Knows(r: Ring, i: nat, c: nat)
    requires Sized(r)
  {
    i < |r| && c < |r| && r[i].known[c]
  }

  lemma {:induction false} KnowledgeStays(r: Ring, own: seq<bool>, es: seq<Event>, i: nat, c: nat)
    requires Sized(r) && |own| == |r| && Within(es, |r|) && Knows(r, i, c)
    ensures Knows(Run(r, own, es), i, c)
    decreases |es|
  {
    if |es| > 0 { KnowledgeStays(r, own, es[..|es| - 1], i, c); }
  }

  /** What a monitor knows is known to the next after it has shared. */
  lemma {:induction false} ShareReaches(r: Ring, own: seq<bool>, es: seq<Event>, k: nat, c: nat)
    requires Sized(r) && |own| == |r| && Within(es, |r|) && k < |es| && es[k].Share? && Knows(r, es[k].i, c)
    ensures Knows(Run(r, own, es), Next(es[k].i, |r|), c)
  {
    var i, before, rest := es[k].i, es[..k], es[k + 1..];
    KnowledgeStays(r, own, before, i, c);
    var r' := Run(r, own, before);
    var r'' := Apply(r', own, es[k]);
    assert es[..k + 1][..k] == before;
    assert Run(r, own, es[..k + 1]) == r'';
    assert es == es[..k + 1] + rest;
    RunConcat(r, own, es[..k + 1], rest);
    KnowledgeStays(r'', own, rest, Next(i, |r|), c);
  }

  /** How far a verdict has to travel from its owner. */
  function Distance(owner: nat, i: nat, n: nat): nat
    requires owner < n && i < n
  {
    if owner <= i then i - owner else i + n - owner
  }

  /** Every verdict has travelled d steps. */
  ghost predicate Reached(r: Ring, d: nat) {
    Sized(r) && forall i, c | 0 <= i < |r| && 0 <= c < |r| && Distance(c, i, |r|) <= d :: Knows(r, i, c)
  }

  /** A round: every monitor shares at least once, in any order. */
  ghost predicate Round(es: seq<Event>, n: nat) {
    Within(es, n) && forall i: nat | i < n :: Share(i) in es
  }

  lemma {:induction false} RoundReaches(r: Ring, own: seq<bool>, es: seq<Event>, d: nat)
    requires Reached(r, d) && |own| == |r| && Round(es, |r|)
    ensures Reached(Run(r, own, es), d + 1)
  {
    var n := |r|;
    forall i, c | 0 <= i < n && 0 <= c < n && Distance(c, i, n) <= d + 1 ensures Knows(Run(r, own, es), i, c) {
      if Distance(c, i, n) <= d {
        KnowledgeStays(r, own, es, i, c);
      } else {
        var j: nat := if i == 0 then n - 1 else i - 1;
        assert Next(j, n) == i && Distance(c, j, n) == d;
        assert Share(j) in es;
        var k :| 0 <= k < |es| && es[k] == Share(j);
        ShareReaches(r, own, es, k, c);
      }
    }
  }

  function Flatten(rounds: seq<seq<Event>>): seq<Event> {
    if |rounds| == 0 then [] else Flatten(rounds[..|rounds| - 1]) + rounds[|rounds| - 1]
  }

  ghost predicate AllRounds(rounds: seq<seq<Event>>, n: nat) {
    forall k | 0 <= k < |rounds| :: Round(rounds[k], n)
  }

  lemma {:induction false} RoundsReach(r: Ring, own: seq<bool>, rounds: seq<seq<Event>>)
    requires Reached(r, 0) && |own| == |r| && AllRounds(rounds, |r|)
    ensures Within(Flatten(rounds), |r|) && Reached(Run(r, own, Flatten(rounds)), |rounds|)
    decreases |rounds|
  {
    if |rounds| > 0 {
      var k := |rounds| - 1;
      RoundsReach(r, own, rounds[..k]);
      RunConcat(r, own, Flatten(rounds[..k]), rounds[k]);
      RoundReaches(Run(r, own, Flatten(rounds[..k])), own, rounds[k], k);
    }
  }

  /** Once every monitor has evaluated, n - 1 rounds in any order give every monitor all
      verdicts. */
  lemma {:induction false} RoundsSuffice(r: Ring, own: seq<bool>, rounds: seq<seq<Event>>, i: nat)
    requires Reached(r, 0) && |own| == |r| && AllRounds(rounds, |r|) && |rounds| >= |r| - 1 && i < |r|
    ensures Within(Flatten(rounds), |r|) && KnowsAll(Run(r, own, Flatten(rounds))[i])
  {
    RoundsReach(r, own, rounds);
    var r' := Run(r, own, Flatten(rounds));
    forall c | 0 <= c < |r| ensures r'[i].known[c] { assert Distance(c, i, |r|) <= |rounds|; assert Knows(r', i, c); }
  }

  // ---------------------------------------------------------------- sweeps in index order

  function Sweep(n: nat): (es: seq<Event>)
    ensures |es| == n && forall i | 0 <= i < n :: es[i] == Share(i)
  {
    seq(n, i requires 0 <= i < n => Share(i))
  }

  ghost predicate KnowsBelow(r: Ring, i: nat, m: nat)
    requires Sized(r)
  {
    forall c: nat | c < m :: Knows(r, i, c)
  }

  lemma {:induction false} SweepStep(r: Ring, own: seq<bool>, k: nat)
    requires Sized(r) && |own| == |r| && k < |r|
    ensures Within(Sweep(|r|)[..k], |r|) && Within(Sweep(|r|)[..k + 1], |r|)
    ensures Run(r, own, Sweep(|r|)[..k + 1]) == Apply(Run(r, own, Sweep(|r|)[..k]), own, Share(k))
  {
    assert Sweep(|r|)[..k + 1][..k] == Sweep(|r|)[..k];
  }

  /** After monitor k has shared in a first sweep, its successor knows the verdicts up to k. */
  lemma {:induction false} SweepCarries(r: Ring, own: seq<bool>, k: nat)
    requires Reached(r, 0) && |own| == |r| && k < |r|
    ensures Within(Sweep(|r|)[..k + 1], |r|)
    ensures KnowsBelow(Run(r, own, Sweep(|r|)[..k + 1]), Next(k, |r|), k + 1)
    decreases k
  {
    SweepStep(r, own, k);
    var r' := Run(r, own, Sweep(|r|)[..k]);
    assert Knows(r, k, k) by { assert Distance(k, k, |r|) == 0; }
    KnowledgeStays(r, own, Sweep(|r|)[..k], k, k);
    if k > 0 { SweepCarries(r, own, k - 1); }
    forall c: nat | c < k + 1 ensures Knows(Apply(r', own, Share(k)), Next(k, |r|), c) {
      assert Knows(r', k, c);
    }
  }

  /** If the first monitor knows everything, a sweep tells everyone. */
  lemma {:induction false} SweepTells(r: Ring, own: seq<bool>, k: nat, i: nat)
    requires Sized(r) && |own| == |r| && i <= k < |r| && KnowsBelow(r, 0, |r|)
    ensures Within(Sweep(|r|)[..k], |r|) && KnowsBelow(Run(r, own, Sweep(|r|)[..k]), i, |r|)
    decreases k
  {
    if k > 0 {
      SweepStep(r, own, k - 1);
      var r' := Run(r, own, Sweep(|r|)[..k - 1]);
      var r'' := Apply(r', own, Share(k - 1));
      SweepTells(r, own, k - 1, if i < k then i else k - 1);
      forall c: nat | c < |r| ensures Knows(r'', i, c) {
        if i < k { assert Knows(r', i, c); } else { assert Knows(r', k - 1, c); }
      }
    }
  }

  lemma {:induction false} SecondSweep(r: Ring, own: seq<bool>, i: nat)
    requires Sized(r) && |own| == |r| && i < |r| && KnowsBelow(r, 0, |r|)
    ensures Within(Sweep(|r|), |r|) && KnowsAll(Run(r, own, Sweep(|r|))[i])
  {
    var n, es := |r|, Sweep(|r|);
    var init, last := es[..n - 1], es[n - 1..];
    SweepTells(r, own, n - 1, i);
    assert es == init + last;
    RunConcat(r, own, init, last);
    var r' := Run(r, own, init);
    forall c | 0 <= c < n ensures Run(r, own, es)[i].known[c] {
      assert Knows(r', i, c);
      KnowledgeStays(r', own, last, i, c);
    }
  }

  /** Two sweeps in index order are enough, for a ring of any size. */
  lemma {:induction false} TwoSweepsSuffice(r: Ring, own: seq<bool>, i: nat)
    requires Reached(r, 0) && |own| == |r| && i < |r|
    ensures Within(Sweep(|r|) + Sweep(|r|), |r|) && KnowsAll(Run(r, own, Sweep(|r|) + Sweep(|r|))[i])
  {
    var es := Sweep(|r|);
    assert es[..|r|] == es;
    SweepCarries(r, own, |r| - 1);
    RunConcat(r, own, es, es);
    SecondSweep(Run(r, own, es), own, i);
  }

  // ---------------------------------------------------------------- the monitors

  class Monitor {
    const id: nat
    const subformula: seq<string>
    const numMonitors: nat
    var observations: seq<bool>
    var verdicts: seq<bool>
    var verdictsMod: seq<bool>
    var network: seq<Monitor>

    constructor (id: nat, subformula: seq<string>, numMonitors: nat)
      ensures this.id == id && this.subformula == subformula && this.numMonitors == numMonitors
      ensures observations == [] && network == [] && |verdicts| == |verdictsMod| == numMonitors
      ensures forall c | 0 <= c < numMonitors :: !verdicts[c] && !verdictsMod[c]
    {
      this.id, this.subformula, this.numMonitors := id, subformula, numMonitors;
      observations, network := [], [];
      verdicts, verdictsMod := seq(numMonitors, _ => false), seq(numMonitors, _ => false);
    }

    function View(): Node
      reads this`verdicts, this`verdictsMod
    {
      Node(verdicts, verdictsMod)
    }

    ghost predicate Shaped()
      reads this`verdicts, this`verdictsMod
    {
      id < numMonitors && |verdicts| == |verdictsMod| == numMonitors
    }

    method AddNetwork(network: seq<Monitor>)
      modifies this`network
      ensures this.network == network
    {
      this.network := network;
    }

    /** Adopts a verdict. */
    method GetVerdict(position: nat, verdict: bool)
      requires position < |verdicts| && position < |verdictsMod|
      modifies this`verdicts, this`verdictsMod
      ensures verdicts == old(verdicts)[position := verdict] && verdictsMod == old(verdictsMod)[position := true]
    {
      verdicts := verdicts[position := verdict];
      verdictsMod := verdictsMod[position := true];
    }

    /** Passes everything known to the next monitor; in a ring of one, to itself. */
    method ShareVerdict()
      requires Shaped() && |network| == numMonitors
      requires network[Next(id, numMonitors)].Shaped() && network[Next(id, numMonitors)].numMonitors == numMonitors
      modifies network[Next(id, numMonitors)]
      ensures network == old(network) && observations == old(observations)
      ensures network[Next(id, numMonitors)].observations == old(network[Next(id, numMonitors)].observations)
      ensures network[Next(id, numMonitors)].network == old(network[Next(id, numMonitors)].network)
      ensures network[Next(id, numMonitors)].View() == Merged(old(View()), old(network[Next(id, numMonitors)].View()))
    {
      NextModulo(id, numMonitors);
      var next := network[(id + 1) % numMonitors];
      ghost var mine, theirs := View(), next.View();
      for c := 0 to numMonitors
        invariant next.observations == old(next.observations) && next.network == old(next.network)
        invariant network == old(network) && observations == old(observations)
        invariant |next.verdicts| == |next.verdictsMod| == numMonitors && (next != this ==> View() == mine)
        invariant next == this ==> View() == mine && mine == theirs
        invariant forall d | 0 <= d < numMonitors ::
                    next.verdictsMod[d] == (theirs.known[d] || (d < c && mine.known[d]))
        invariant forall d | 0 <= d < numMonitors ::
                    next.verdicts[d] == if d < c && mine.known[d] then mine.verdicts[d] else theirs.verdicts[d]
      {
        if verdictsMod[c] {
          next.GetVerdict(c, verdicts[c]);
        }
      }
      assert next.verdicts == Merged(mine, theirs).verdicts && next.verdictsMod == Merged(mine, theirs).known;
    }

    /** Evaluates the own subformula, from the left. */
    method Evaluate()
      requires Shaped() && |observations| > 1 && |subformula| >= |observations| - 1
      modifies this`verdicts, this`verdictsMod
      ensures verdicts == old(verdicts)[id := Fold(subformula, observations)]
              && verdictsMod == old(verdictsMod)[id := true]
    {
      var subVerdict: seq<bool> := [];
      for c := 1 to |observations|
        invariant |subVerdict| == c - 1 && verdicts == old(verdicts) && verdictsMod == old(verdictsMod)
        invariant forall k | 0 <= k < c - 1 :: subVerdict[k] == Fold(subformula, observations[..k + 2])
      {
        assert observations[..c + 1][..c] == observations[..c];
        assert c == 1 ==> Fold(subformula, observations[..1]) == observations[0];
        var verd;
        if c == 1 {
          verd := if subformula[c - 1] == "and" then observations[c] && observations[c - 1]
                  else observations[c] || observations[c - 1];
        } else {
          verd := if subformula[c - 1] == "and" then observations[c] && subVerdict[c - 2]
                  else observations[c] || subVerdict[c - 2];
        }
        subVerdict := subVerdict + [verd];
      }
      assert observations[..|observations|] == observations;
      verdicts := verdicts[id := subVerdict[|subVerdict| - 1]];
      verdictsMod := verdictsMod[id := true];
    }

    /** The conjunction of all verdicts held. */
    method EvaluateAll() returns (all: bool)
      requires |verdicts| == numMonitors
      ensures all <==> AllTrue(View().verdicts)
    {
      for c := 0 to numMonitors
        invariant forall d | 0 <= d < c :: verdicts[d]
      {
        if !verdicts[c] {
          return false;
        }
      }
      return true;
    }
  }

  // ---------------------------------------------------------------- runs of the monitors

  /** A ring: monitor i has id i, and all share one network. */
  ghost predicate IsRing(ms: seq<Monitor>)
    reads ms
  {
    |ms| > 0 && forall i | 0 <= i < |ms| ::
      ms[i].id == i && ms[i].numMonitors == |ms| && ms[i].network == ms && ms[i].Shaped()
      && |ms[i].observations| > 1 && |ms[i].subformula| >= |ms[i].observations| - 1
  }

  ghost function Views(ms: seq<Monitor>): (r: Ring)
    reads ms
    ensures |r| == |ms| && forall i | 0 <= i < |ms| :: r[i] == ms[i].View()
  {
    seq(|ms|, i requires 0 <= i < |ms| reads ms => ms[i].View())
  }

  /** The value of every monitor's subformula. */
  ghost function Own(ms: seq<Monitor>): (own: seq<bool>)
    requires IsRing(ms)
    reads ms
    ensures |own| == |ms| && forall i | 0 <= i < |ms| :: own[i] == Fold(ms[i].subformula, ms[i].observations)
  {
    seq(|ms|, i requires 0 <= i < |ms| && IsRing(ms) reads ms => Fold(ms[i].subformula, ms[i].observations))
  }

  /** One event on the monitors. */
  method Perform(ms: seq<Monitor>, e: Event)
    requires IsRing(ms) && e.i < |ms|
    modifies ms
    ensures IsRing(ms) && Own(ms) == old(Own(ms))
    ensures Views(ms) == Apply(old(Views(ms)), old(Own(ms)), e)
  {
    match e
    case Evaluate(i) => ms[i].Evaluate();
    case Share(i) => ms[i].ShareVerdict();
  }

  /** Any schedule on the monitors is the same run of the values they hold. */
  method Execute(ms: seq<Monitor>, es: seq<Event>)
    requires IsRing(ms) && Within(es, |ms|)
    modifies ms
    ensures IsRing(ms) && Own(ms) == old(Own(ms))
    ensures Views(ms) == Run(old(Views(ms)), old(Own(ms)), es)
  {
    for k := 0 to |es|
      invariant IsRing(ms) && Own(ms) == old(Own(ms)) && Within(es[..k], |ms|)
      invariant Views(ms) == Run(old(Views(ms)), old(Own(ms)), es[..k])
    {
      Perform(ms, es[k]);
      assert es[..k + 1][..k] == es[..k];
    }
    assert es[..|es|] == es;
  }

  function Evaluations(n: nat): (es: seq<Event>)
    ensures |es| == n && forall i | 0 <= i < n :: es[i] == Evaluate(i)
  {
    seq(n, i requires 0 <= i < n => Evaluate(i))
  }

  ghost predicate Blank(r: Ring) {
    Sized(r) && forall i, c | 0 <= i < |r| && 0 <= c < |r| :: !r[i].known[c] && !r[i].verdicts[c]
  }

  lemma {:induction false} BlankHonest(r: Ring, own: seq<bool>)
    requires Blank(r) && |own| == |r|
    ensures Honest(r, own)
  {}

  /** After the evaluations every monitor knows its own verdict. */
  lemma {:induction false} EvaluationsReach(r: Ring, own: seq<bool>, k: nat)
    requires Sized(r) && |own| == |r| && k <= |r|
    ensures Within(Evaluations(|r|)[..k], |r|)
    ensures forall i: nat | i < k :: Knows(Run(r, own, Evaluations(|r|)[..k]), i, i)
    decreases k
  {
    if k > 0 {
      EvaluationsReach(r, own, k - 1);
      assert Evaluations(|r|)[..k][..k - 1] == Evaluations(|r|)[..k - 1];
      var r' := Run(r, own, Evaluations(|r|)[..k - 1]);
      var r'' := Apply(r', own, Evaluate(k - 1));
      forall i: nat | i < k ensures Knows(r'', i, i) { assert i < k - 1 ==> Knows(r', i, i); }
    }
  }

  function Sweeps(n: nat, c: nat): (rounds: seq<seq<Event>>)
    ensures |rounds| == c && forall k | 0 <= k < c :: rounds[k] == Sweep(n)
  {
    seq(c, _ => Sweep(n))
  }

  lemma {:induction false} SweepsSnoc(n: nat, c: nat)
    ensures Flatten(Sweeps(n, c + 1)) == Flatten(Sweeps(n, c)) + Sweep(n)
  {
    assert Sweeps(n, c + 1)[..c] == Sweeps(n, c);
  }

  lemma {:induction false} SweepsWithin(n: nat, c: nat)
    ensures Within(Flatten(Sweeps(n, c)), n)
    decreases c
  {
    if c > 0 {
      SweepsWithin(n, c - 1);
      SweepsSnoc(n, c - 1);
    }
  }

  /** The program's schedule tells everyone everything. */
  lemma {:induction false} ScheduleSuffices(r: Ring, own: seq<bool>, i: nat)
    requires Sized(r) && |own| == |r| && i < |r|
    ensures Within(Evaluations(|r|), |r|) && Within(Flatten(Sweeps(|r|, |r|)), |r|)
    ensures KnowsAll(Run(Run(r, own, Evaluations(|r|)), own, Flatten(Sweeps(|r|, |r|)))[i])
  {
    var n := |r|;
    EvaluationsReach(r, own, n);
    assert Evaluations(n)[..n] == Evaluations(n);
    var r' := Run(r, own, Evaluations(n));
    assert Reached(r', 0) by { assert forall i, c | 0 <= i < n && 0 <= c < n && Distance(c, i, n) <= 0 :: i == c; }
    forall k | 0 <= k < n ensures Round(Sweeps(n, n)[k], n) {
      assert forall j: nat | j < n :: Sweep(n)[j] == Share(j);
    }
    RoundsSuffice(r', own, Sweeps(n, n), i);
  }

  /** The program's schedule, from blank monitors: all evaluate, then n sweeps.  The verdict of
      every monitor is the conjunction of all subformulas. */
  method Disseminate(ms: seq<Monitor>, i: nat) returns (verdict: bool)
    requires IsRing(ms) && Blank(Views(ms)) && i < |ms|
    modifies ms
    ensures IsRing(ms) && Own(ms) == old(Own(ms)) && KnowsAll(Views(ms)[i])
    ensures verdict <==> AllTrue(Own(ms))
  {
    ghost var n, r0, own := |ms|, Views(ms), Own(ms);
    Execute(ms, Evaluations(|ms|));
    ghost var r1 := Views(ms);
    for c := 0 to |ms|
      invariant IsRing(ms) && Own(ms) == own && Within(Flatten(Sweeps(n, c)), n)
      invariant Views(ms) == Run(r1, own, Flatten(Sweeps(n, c)))
    {
      Execute(ms, Sweep(|ms|));
      RunConcat(r1, own, Flatten(Sweeps(n, c)), Sweep(n));
      SweepsSnoc(n, c);
    }
    ScheduleSuffices(r0, own, i);
    BlankHonest(r0, own);
    RunHonest(r0, own, Evaluations(n));
    OverallVerdict(r1, own, Flatten(Sweeps(n, n)), i);
    verdict := ms[i].EvaluateAll();
  }
}
