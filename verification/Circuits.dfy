/** The counting circuits of maxsat.c: ripple-carry adders, the tree of adders that counts
    true literals in two swapped buffers, the comparison with a constant, and the
    at-most-k constraint built from them. */
module Circuits {
  import opened Prop
  import opened Solver
  import opened Words

  // ---------------------------------------------------------------- numbers

  function Pow2(n: nat): (p: nat)
    ensures p >= 1
  {
    if n == 0 then 1 else 2 * Pow2(n - 1)
  }

  function BitOf(b: bool, i: nat): nat {
    if b then Pow2(i) else 0
  }

  /** The number a row of bits denotes, least significant bit first. */
  function Value(bits: seq<Form>, a: Assignment): (v: nat)
    ensures v < Pow2(|bits|)
  {
    if |bits| == 0 then 0
    else
      var i := |bits| - 1;
      Value(bits[..i], a) + BitOf(Eval(bits[i], a), i)
  }

  function Sum(nums: seq<seq<Form>>, a: Assignment): nat {
    if |nums| == 0 then 0 else Value(nums[0], a) + Sum(nums[1..], a)
  }

  predicate Uniform(nums: seq<seq<Form>>, b: nat) {
    forall i | 0 <= i < |nums| :: |nums[i]| == b
  }

  /** The numbers one after the other, as the buffers hold them. */
  function Flat(nums: seq<seq<Form>>): seq<Form> {
    if |nums| == 0 then [] else nums[0] + Flat(nums[1..])
  }

  lemma {:induction false} FlatLength(nums: seq<seq<Form>>, b: nat)
    requires Uniform(nums, b)
    ensures |Flat(nums)| == b * |nums|
  {
    if |nums| > 0 {
      FlatLength(nums[1..], b);
      assert b * |nums| == b + b * (|nums| - 1);
    }
  }

  lemma Nonneg(x: nat, y: nat)
    ensures x * y >= 0
  {}

  // ---------------------------------------------------------------- adders

  function And2(x: Form, y: Form): Form { And(x, y) }

  function Or3(x: Form, y: Form, z: Form): Form { Or(x, Or(y, z)) }

  function CarryOut(x: Form, y: Form, cin: Form): Form {
    Or3(And2(x, y), And2(x, cin), And2(y, cin))
  }

  function SumOut(x: Form, y: Form, cin: Form): Form { Xor(Xor(x, y), cin) }

  /** The carry into position i. */
  function Carry(x: seq<Form>, y: seq<Form>, i: nat): Form
    requires i <= |x| == |y|
  {
    if i == 0 then Bot else CarryOut(x[i - 1], y[i - 1], Carry(x, y, i - 1))
  }

  function SumBits(x: seq<Form>, y: seq<Form>, i: nat): (s: seq<Form>)
    requires i <= |x| == |y|
    ensures |s| == i
  {
    if i == 0 then [] else SumBits(x, y, i - 1) + [SumOut(x[i - 1], y[i - 1], Carry(x, y, i - 1))]
  }

  function Adder(x: seq<Form>, y: seq<Form>): (s: seq<Form>)
    requires |x| == |y|
    ensures |s| == |x| + 1
  {
    SumBits(x, y, |x|) + [Carry(x, y, |x|)]
  }

  /** Sum and carry of one position. */
  lemma FullAdderAdds(x: Form, y: Form, cin: Form, a: Assignment)
    ensures Eval(CarryOut(x, y, cin), a) <==>
            (Eval(x, a) && Eval(y, a)) || (Eval(x, a) && Eval(cin, a)) || (Eval(y, a) && Eval(cin, a))
    ensures Eval(SumOut(x, y, cin), a) <==> (Eval(x, a) != Eval(y, a)) != Eval(cin, a)
  {
    assert Eval(Or(And2(x, cin), And2(y, cin)), a) <==> Eval(And2(x, cin), a) || Eval(And2(y, cin), a);
    assert Eval(Xor(x, y), a) <==> Eval(x, a) != Eval(y, a);
  }

  lemma {:induction false} SumBitsValue(x: seq<Form>, y: seq<Form>, i: nat, a: Assignment)
    requires i <= |x| == |y|
    ensures Value(SumBits(x, y, i), a) + BitOf(Eval(Carry(x, y, i), a), i) == Value(x[..i], a) + Value(y[..i], a)
  {
    if i > 0 {
      var j := i - 1;
      SumBitsValue(x, y, j, a);
      PositionValue(x, y, j, a);
      ValueTake(x, j, a);
      ValueTake(y, j, a);
      ValueSnoc(SumBits(x, y, j), SumOut(x[j], y[j], Carry(x, y, j)), a);
    }
  }

  lemma PositionValue(x: seq<Form>, y: seq<Form>, j: nat, a: Assignment)
    requires j < |x| == |y|
    ensures BitOf(Eval(SumOut(x[j], y[j], Carry(x, y, j)), a), j) + BitOf(Eval(Carry(x, y, j + 1), a), j + 1)
         == BitOf(Eval(x[j], a), j) + BitOf(Eval(y[j], a), j) + BitOf(Eval(Carry(x, y, j), a), j)
  {
    var cin := Carry(x, y, j);
    FullAdderAdds(x[j], y[j], cin, a);
    PositionAdds(Eval(x[j], a), Eval(y[j], a), Eval(cin, a), j);
  }

  lemma ValueTake(bits: seq<Form>, j: nat, a: Assignment)
    requires j < |bits|
    ensures Value(bits[..j + 1], a) == Value(bits[..j], a) + BitOf(Eval(bits[j], a), j)
  {
    assert bits[..j + 1] == bits[..j] + [bits[j]];
    ValueSnoc(bits[..j], bits[j], a);
  }

  lemma ValueSnoc(bits: seq<Form>, b: Form, a: Assignment)
    ensures Value(bits + [b], a) == Value(bits, a) + BitOf(Eval(b, a), |bits|)
  {
    assert (bits + [b])[..|bits|] == bits;
  }

  lemma PositionAdds(x: bool, y: bool, c: bool, j: nat)
    ensures BitOf((x != y) != c, j) + BitOf((x && y) || (x && c) || (y
            && c), j + 1) == BitOf(x, j) + BitOf(y, j) + BitOf(c, j)
  {}

  /** The adder adds: its n + 1 output bits denote the sum of the two n-bit inputs. */
  lemma AdderAdds(x: seq<Form>, y: seq<Form>, a: Assignment)
    requires |x| == |y|
    ensures Value(Adder(x, y), a) == Value(x, a) + Value(y, a)
  {
    var n := |x|;
    SumBitsValue(x, y, n, a);
    assert x[..n] == x && y[..n] == y;
    assert Adder(x, y)[..n] == SumBits(x, y, n);
  }

  method MkFullAdder(x: Form, y: Form, cin: Form) returns (out: Form, cout: Form)
    ensures out == SumOut(x, y, cin) && cout == CarryOut(x, y, cin)
  {
    cout := Or3(And2(x, y), And2(x, cin), And2(y, cin));
    out := Xor(Xor(x, y), cin);
  }

  /** Adds the numbers x and y at offsets i1 and i2 of ins into result at offset r. */
  method MkAdder(numBits: nat, ins: array<Form>, i1: nat, i2: nat, result: array<Form>, r: nat,
                 ghost x: seq<Form>, ghost y: seq<Form>)
    requires 1 <= numBits && ins != result
    requires i1 + numBits <= ins.Length && i2 + numBits <= ins.Length && r + numBits + 1 <= result.Length
    requires x == ins[i1..i1 + numBits] && y == ins[i2..i2 + numBits]
    modifies result
    ensures result[..r] == old(result[..r])
    ensures result[r..r + numBits + 1] == Adder(x, y)
    ensures result[r + numBits + 1..] == old(result[r + numBits + 1..])
  {
    var cin, cout, out := Bot, Bot, Bot;
    var i := 0;
    while i < numBits
      invariant i <= numBits
      invariant cin == Carry(x, y, i) && (i > 0 ==> cout == cin)
      invariant result[..r] == old(result[..r])
      invariant result[r..r + i] == SumBits(x, y, i)
      invariant result[r + numBits + 1..] == old(result[r + numBits + 1..])
    {
      out, cout := MkFullAdder(ins[i1 + i], ins[i2 + i], cin);
      assert x[i] == ins[i1 + i] && y[i] == ins[i2 + i];
      result[r + i] := out;
      cin := cout;
      i := i + 1;
      assert result[r..r + i] == result[r..r + i - 1] + [result[r + i - 1]];
    }
    result[r + numBits] := cout;
    assert result[r..r + numBits + 1] == result[r..r + numBits] + [result[r + numBits]];
  }

  // ---------------------------------------------------------------- one round of additions

  function Half(m: nat): nat {
    if m % 2 == 0 then m / 2 else m / 2 + 1
  }

  /** One round: adjacent numbers are added in pairs, a last odd one gets a zero bit. */
  function PairUp(nums: seq<seq<Form>>, b: nat): (r: seq<seq<Form>>)
    requires Uniform(nums, b)
    ensures |r| == Half(|nums|) && Uniform(r, b + 1)
  {
    if |nums| == 0 then []
    else if |nums| == 1 then [nums[0] + [Bot]]
    else [Adder(nums[0], nums[1])] + PairUp(nums[2..], b)
  }

  /** A round of additions keeps the sum. */
  lemma {:induction false} PairUpKeepsSum(nums: seq<seq<Form>>, b: nat, a: Assignment)
    requires Uniform(nums, b)
    ensures Sum(PairUp(nums, b), a) == Sum(nums, a)
  {
    var r := PairUp(nums, b);
    if |nums| == 1 {
      assert r[0][..b] == nums[0];
      assert r[1..] == [] && nums[1..] == [];
    } else if |nums| >= 2 {
      AdderAdds(nums[0], nums[1], a);
      PairUpKeepsSum(nums[2..], b, a);
      assert r[1..] == PairUp(nums[2..], b) && nums[1..][1..] == nums[2..];
    }
  }

  lemma FlatOne(num: seq<Form>)
    ensures Flat([num]) == num
  {
    assert [num][1..] == [] && num + [] == num;
  }

  lemma SubSlice(s: seq<Form>, lo: nat, hi: nat, i: nat, j: nat)
    requires i <= j <= hi - lo && hi <= |s|
    ensures s[lo..hi][i..j] == s[lo + i..lo + j]
  {
    var x, y := s[lo..hi][i..j], s[lo + i..lo + j];
    forall k | 0 <= k < j - i ensures x[k] == y[k] {
      assert x[k] == s[lo..hi][i + k] == s[lo + (i + k)];
    }
  }

  lemma FlatPair(nums: seq<seq<Form>>, b: nat, cells: seq<Form>)
    requires Uniform(nums, b) && |nums| >= 2 && cells == Flat(nums)
    ensures |cells| >= 2 * b
    ensures cells[..b] == nums[0] && cells[b..2 * b] == nums[1] && cells[2 * b..] == Flat(nums[2..])
  {
    assert nums[1..][1..] == nums[2..];
    assert Flat(nums) == nums[0] + (nums[1] + Flat(nums[2..]));
  }

  lemma FlatPairUp(nums: seq<seq<Form>>, b: nat, done: seq<Form>, tail: seq<Form>) returns (tail': seq<Form>)
    requires Uniform(nums, b) && |nums| >= 2 && tail == Flat(PairUp(nums, b))
    ensures tail' == Flat(PairUp(nums[2..], b))
    ensures done + tail == (done + Adder(nums[0], nums[1])) + tail'
    ensures |tail| == b + 1 + |tail'|
  {
    var r := PairUp(nums, b);
    assert r[1..] == PairUp(nums[2..], b);
    tail' := Flat(r[1..]);
    assert Flat(r) == r[0] + tail';
  }

  /** The buffer starts with the given bits. */
  ghost predicate Holds(buffer: array<Form>, bits: seq<Form>)
    reads buffer
  {
    |bits| <= buffer.Length && buffer[..|bits|] == bits
  }

  /** One round between the buffers; nums are the numbers that ins holds. */
  method MkAdderPairs(numBits: nat, numIns: nat, ins: array<Form>, out: array<Form>, ghost nums: seq<seq<Form>>)
    returns (outNumIns: nat)
    requires 1 <= numBits && ins != out && |nums| == numIns && Uniform(nums, numBits)
    requires Holds(ins, Flat(nums)) && |Flat(PairUp(nums, numBits))| <= out.Length
    modifies out
    ensures outNumIns == Half(numIns)
    ensures Holds(out, Flat(PairUp(nums, numBits)))
  {
    var outNumBits := numBits + 1;
    outNumIns := if numIns % 2 == 0 then numIns / 2 else numIns / 2 + 1;
    ghost var end, rest := |Flat(nums)|, nums;
    ghost var all := Flat(PairUp(nums, numBits));
    ghost var tail := all;
    var pin, pout := 0, 0;
    assert ins[..end] == Flat(nums) && out[..0] + all == all;
    for i := 0 to numIns / 2
      invariant pin <= end && pout <= out.Length
      invariant |rest| == numIns - 2 * i && Uniform(rest, numBits)
      invariant ins[pin..end] == Flat(rest)
      invariant tail == Flat(PairUp(rest, numBits)) && out[..pout] + tail == all
    {
      tail := AddPair(numBits, ins, pin, end, out, pout, rest, tail, all);
      pin := pin + numBits;
      pin := pin + numBits;
      pout := pout + outNumBits;
      rest := rest[2..];
    }
    if numIns % 2 != 0 {
      CopyLast(numBits, ins, pin, out, pout, rest, all);
    } else {
      assert out[..pout] + [] == out[..pout];
    }
  }

  /** The adder for the next two numbers of the row; rest are the numbers not yet added
      and tail is what their round will append. */
  method AddPair(numBits: nat, ins: array<Form>, pin: nat, ghost end: nat, out: array<Form>, pout: nat,
                 ghost rest: seq<seq<Form>>, ghost tail: seq<Form>, ghost all: seq<Form>)
    returns (ghost tail': seq<Form>)
    requires 1 <= numBits && ins != out && pin <= end <= ins.Length && pout <= out.Length
    requires |rest| >= 2 && Uniform(rest, numBits) && ins[pin..end] == Flat(rest)
    requires tail == Flat(PairUp(rest, numBits)) && out[..pout] + tail == all && |all| <= out.Length
    modifies out
    ensures pin + 2 * numBits <= end && ins[pin + 2 * numBits..end] == Flat(rest[2..])
    ensures tail' == Flat(PairUp(rest[2..], numBits))
    ensures pout + numBits + 1 <= out.Length && out[..pout + numBits + 1] + tail' == all
  {
    ghost var done, cells := out[..pout], ins[pin..end];
    FlatPair(rest, numBits, cells);
    tail' := FlatPairUp(rest, numBits, done, tail);
    SubSlice(ins[..], pin, end, 0, numBits);
    SubSlice(ins[..], pin, end, numBits, numBits + numBits);
    SubSlice(ins[..], pin, end, numBits + numBits, end - pin);
    MkAdder(numBits, ins, pin, pin + numBits, out, pout, rest[0], rest[1]);
    assert out[..pout + numBits + 1] == out[..pout] + out[pout..pout + numBits + 1];
  }

  /** The last number of an odd row, with a zero bit appended. */
  method CopyLast(numBits: nat, ins: array<Form>, pin: nat, out: array<Form>, pout: nat,
                  ghost rest: seq<seq<Form>>, ghost all: seq<Form>)
    requires ins != out && |rest| == 1 && Uniform(rest, numBits)
    requires pin + numBits <= ins.Length && ins[pin..pin + numBits] == Flat(rest)
    requires pout <= out.Length && out[..pout] + Flat(PairUp(rest, numBits)) == all && |all| <= out.Length
    modifies out
    ensures Holds(out, all)
  {
    ghost var done, num := out[..pout], rest[0];
    FlatOne(num);
    FlatOne(num + [Bot]);
    assert rest == [num] && PairUp(rest, numBits) == [num + [Bot]];
    assert all == done + (num + [Bot]);
    var i := 0;
    while i < numBits
      invariant i <= numBits
      invariant out[..pout + i] == done + num[..i]
    {
      assert num[i] == ins[pin + i];
      out[pout + i] := ins[pin + i];
      i := i + 1;
      assert out[..pout + i] == out[..pout + i - 1] + [out[pout + i - 1]];
    }
    out[pout + numBits] := Bot;
    assert out[..pout + numBits + 1] == out[..pout + numBits] + [Bot];
  }

  // ---------------------------------------------------------------- the counter

  /** All rounds: from a row of b-bit numbers down to one. */
  function Counter(nums: seq<seq<Form>>, b: nat): seq<Form>
    requires Uniform(nums, b) && |nums| >= 1
    decreases |nums|
  {
    if |nums| == 1 then nums[0] else Counter(PairUp(nums, b), b + 1)
  }

  function Rounds(m: nat): nat {
    if m <= 1 then 0 else 1 + Rounds(Half(m))
  }

  lemma {:induction false} CounterValue(nums: seq<seq<Form>>, b: nat, a: Assignment)
    requires Uniform(nums, b) && |nums| >= 1
    ensures |Counter(nums, b)| == b + Rounds(|nums|)
    ensures Value(Counter(nums, b), a) == Sum(nums, a)
    decreases |nums|
  {
    if |nums| > 1 {
      PairUpKeepsSum(nums, b, a);
      CounterValue(PairUp(nums, b), b + 1, a);
    } else {
      assert nums[1..] == [];
    }
  }

  /** Each literal as a one-bit number. */
  function Singles(lits: seq<Form>): (r: seq<seq<Form>>)
    ensures |r| == |lits| && Uniform(r, 1)
  {
    seq(|lits|, i requires 0 <= i < |lits| => [lits[i]])
  }

  lemma {:induction false} SumOfSingles(lits: seq<Form>, a: Assignment)
    ensures Sum(Singles(lits), a) == Count(lits, a)
    ensures Flat(Singles(lits)) == lits
  {
    if |lits| > 0 {
      SumOfSingles(lits[1..], a);
      assert Singles(lits)[1..] == Singles(lits[1..]);
      CountConcat(lits[..1], lits[1..], a);
      assert lits == lits[..1] + lits[1..] && [lits[0]] == lits[..1];
      assert lits[..1][..0] == [];
    }
  }

  /** The circuit's output bits as a function of the literals. */
  function CounterBits(lits: seq<Form>): seq<Form>
    requires |lits| >= 1
  {
    Counter(Singles(lits), 1)
  }

  /** The counter is exact: its bits denote the number of true literals. */
  lemma CounterCounts(lits: seq<Form>, a: Assignment)
    requires |lits| >= 1
    ensures |CounterBits(lits)| == 1 + Rounds(|lits|)
    ensures Value(CounterBits(lits), a) == Count(lits, a)
  {
    CounterValue(Singles(lits), 1, a);
    SumOfSingles(lits, a);
  }

  /** The two (n + 1)-cell buffers suffice: a round's output fits wherever its input did,
      and only the first round may produce more cells than it consumes. */
  lemma RoundFits(b: nat, m: nat)
    requires b >= 1 && m >= 2
    ensures b == 1 ==> (b + 1) * Half(m) <= m + 1
    ensures b >= 2 ==> (b + 1) * Half(m) <= b * m
  {
    if b >= 2 {
      var h := m / 2;
      if m % 2 == 0 {
        calc {
          b * m - (b + 1) * h;
          b * (2 * h) - (b + 1) * h;
          (b - 1) * h;
        }
        Nonneg(b - 1, h);
      } else {
        calc {
          b * m - (b + 1) * (h + 1);
          b * (2 * h + 1) - (b + 1) * (h + 1);
          (b - 2) * h + (h - 1);
        }
        Nonneg(b - 2, h);
      }
    }
  }

  method MkCounterCircuit(lits: seq<Form>) returns (bits: seq<Form>)
    requires |lits| >= 1
    ensures bits == CounterBits(lits)
    ensures forall a :: Value(bits, a) == Count(lits, a)
  {
    var n := |lits|;
    var numIns, numBits := n, 1;
    var aux1 := new Form[n + 1](_ => Bot);
    var aux2 := new Form[n + 1](_ => Bot);
    forall i | 0 <= i < n { aux1[i] := lits[i]; }
    ghost var nums := Singles(lits);
    SumOfSingles(lits, {});
    assert aux1[..n] == lits;
    while numIns > 1
      invariant 1 <= numIns == |nums| && 1 <= numBits && aux1 != aux2 && Uniform(nums, numBits) == true
      invariant fresh(aux1) && fresh(aux2) && aux1.Length == aux2.Length == n + 1
      invariant Holds(aux1, Flat(nums)) == true && (numBits == 1 ==> numIns == n)
      invariant Counter(nums, numBits) == CounterBits(lits)
      decreases numIns
    {
      RoundRoom(nums, numBits, n);
      var newNumIns := MkAdderPairs(numBits, numIns, aux1, aux2, nums);
      nums := PairUp(nums, numBits);
      numIns := newNumIns;
      numBits := numBits + 1;
      aux1, aux2 := aux2, aux1;
    }
    LastNumber(nums, numBits);
    bits := aux1[..numBits];
    forall a ensures Value(bits, a) == Count(lits, a) { CounterCounts(lits, a); }
  }

  lemma RoundRoom(nums: seq<seq<Form>>, b: nat, n: nat)
    requires Uniform(nums, b) && b >= 1 && |nums| >= 2 && (b == 1 ==> |nums| == n) && |Flat(nums)| <= n + 1
    ensures |Flat(PairUp(nums, b))| <= n + 1
  {
    RoundFits(b, |nums|);
    FlatLength(nums, b);
    FlatLength(PairUp(nums, b), b + 1);
  }

  lemma LastNumber(nums: seq<seq<Form>>, numBits: nat)
    requires |nums| == 1 && numBits >= 1 && Uniform(nums, numBits)
    ensures Flat(nums) == nums[0] == Counter(nums, numBits) && |nums[0]| == numBits
  {
    assert nums == [nums[0]];
    FlatOne(nums[0]);
  }

  // ---------------------------------------------------------------- comparison with a constant

  /** Bit idx of a 32-bit word; the shift distance wraps at 32. */
  predicate GetBit(val: nat, idx: nat) {
    (val / Pow2(idx % 32)) % 2 == 1
  }

  /** The constant as the comparator reads it, bit by bit. */
  function ReadBits(k: nat, n: nat): (bs: seq<bool>)
    ensures |bs| == n
  {
    if n == 0 then [] else ReadBits(k, n - 1) + [GetBit(k, n - 1)]
  }

  function Number(bs: seq<bool>): (v: nat)
    ensures v < Pow2(|bs|)
  {
    if |bs| == 0 then 0 else Number(bs[..|bs| - 1]) + BitOf(bs[|bs| - 1], |bs| - 1)
  }

  /** One stage of the comparator. */
  function Stage(bit: Form, out: Form, d: bool): Form {
    var notVal := Not(bit);
    if d then Or3(notVal, out, And2(notVal, out)) else Or3(Bot, Bot, And2(notVal, out))
  }

  lemma StageValue(bit: Form, out: Form, d: bool, a: Assignment)
    ensures Eval(Stage(bit, out, d), a) <==> if d then !Eval(bit, a) || Eval(out, a) else !Eval(bit, a) && Eval(out, a)
  {
    var both := And2(Not(bit), out);
    assert Eval(Not(bit), a) <==> !Eval(bit, a);
    assert Eval(both, a) <==> Eval(Not(bit), a) && Eval(out, a);
    assert Eval(Or(out, both), a) <==> Eval(out, a) || Eval(both, a);
    assert Eval(Or(Bot, both), a) <==> Eval(both, a);
  }

  /** The comparator over the first n bits. */
  function LeBits(val: seq<Form>, bs: seq<bool>, n: nat): Form
    requires 1 <= n <= |val| == |bs|
  {
    if n == 1 then (if bs[0] then Top else Not(val[0]))
    else Stage(val[n - 1], LeBits(val, bs, n - 1), bs[n - 1])
  }

  /** The comparator is true exactly when the number is at most the constant. */
  lemma {:induction false} LeBitsCompares(val: seq<Form>, bs: seq<bool>, n: nat, a: Assignment)
    requires 1 <= n <= |val| == |bs|
    ensures Eval(LeBits(val, bs, n), a) <==> Value(val[..n], a) <= Number(bs[..n])
  {
    var v, w, c, d := val[..n - 1], val[n - 1], bs[..n - 1], bs[n - 1];
    assert val[..n][..n - 1] == v && bs[..n][..n - 1] == c;
    assert Value(val[..n], a) == Value(v, a) + BitOf(Eval(w, a), n - 1);
    assert Number(bs[..n]) == Number(c) + BitOf(d, n - 1);
    if n > 1 {
      LeBitsCompares(val, bs, n - 1, a);
      StageValue(w, LeBits(val, bs, n - 1), d, a);
    } else {
      assert v == [] && c == [];
    }
  }

  lemma MulGe(m: nat, d: nat)
    requires d >= 1
    ensures m * d >= m
  {
    assert m * d == m + m * (d - 1);
    Nonneg(m, d - 1);
  }

  lemma ModUnique(k: nat, m: nat, q: nat, r: nat)
    requires m >= 1 && k == m * q + r && r < m
    ensures k % m == r
  {
    var q', r' := k / m, k % m;
    assert k == m * q' + r';
    if q > q' {
      assert m * q - m * q' == m * (q - q');
      MulGe(m, q - q');
    } else if q < q' {
      assert m * q' - m * q == m * (q' - q);
      MulGe(m, q' - q);
    }
  }

  lemma DivMod(k: nat, p: nat)
    requires p >= 1
    ensures k % (2 * p) == k % p + (if (k / p) % 2 == 1 then p else 0)
  {
    var q, r := k / p, k % p;
    assert k == p * q + r;
    var h := q / 2;
    if q % 2 == 1 {
      assert p * q == p * (2 * h + 1) == (2 * p) * h + p;
      ModUnique(k, 2 * p, h, p + r);
    } else {
      assert p * q == p * (2 * h) == (2 * p) * h;
      ModUnique(k, 2 * p, h, r);
    }
  }

  lemma ReadBitsSnoc(k: nat, n: nat)
    requires n >= 1
    ensures Number(ReadBits(k, n)) == Number(ReadBits(k, n - 1)) + BitOf(GetBit(k, n - 1), n - 1)
  {
    assert ReadBits(k, n)[..n - 1] == ReadBits(k, n - 1);
  }

  lemma GetBitInWord(k: nat, i: nat)
    requires i < 32
    ensures GetBit(k, i) <==> (k / Pow2(i)) % 2 == 1
  {
    SmallMod(i, 32);
  }

  lemma {:induction false} ReadBitsMod(k: nat, n: nat)
    requires n <= 32
    ensures Number(ReadBits(k, n)) == k % Pow2(n)
  {
    if n > 0 {
      ReadBitsMod(k, n - 1);
      DivMod(k, Pow2(n - 1));
      ReadBitsSnoc(k, n);
      GetBitInWord(k, n - 1);
    }
  }

  lemma {:induction false} Pow2Mono(m: nat, n: nat)
    requires m <= n
    ensures Pow2(m) <= Pow2(n)
    decreases n - m
  {
    if m < n { Pow2Mono(m, n - 1); }
  }

  lemma PowEven(n: nat)
    requires n >= 1
    ensures Pow2(n) % 2 == 0
  {}

  /** A counter of m literals has just enough bits. */
  lemma {:induction false} RoundsTight(m: nat)
    requires m >= 1
    ensures m <= Pow2(Rounds(m))
    ensures m >= 2 ==> 2 * m > Pow2(Rounds(m))
  {
    if m > 1 {
      var h, p := Half(m), Pow2(Rounds(Half(m)));
      RoundsTight(h);
      assert m <= 2 * h <= m + 1 && Pow2(Rounds(m)) == 2 * p;
      if h >= 2 { PowEven(Rounds(h)); }
    }
  }

  lemma Pow2At32()
    ensures Pow2(31) == HALF && Pow2(32) == WORD && Pow2(33) == 2 * WORD
  {
    assert Pow2(8) == 256;
    assert Pow2(16) == 0x1_0000 by { assert Pow2(12) == 4096; }
    assert Pow2(24) == 0x100_0000 by { assert Pow2(20) == 0x10_0000; }
    assert Pow2(28) == 0x1000_0000;
  }

  lemma SmallMod(k: nat, m: nat)
    requires k < m
    ensures k % m == k
  {}

  /** What the comparator reads of a 32-bit k < n: k itself, until a 33rd counter bit
      makes it read bit 0 of k a second time. */
  lemma ReadBitsOfK(n: nat, k: nat)
    requires 2 <= n < WORD && k < n
    ensures Number(ReadBits(k, 1 + Rounds(n))) == if n > HALF && k % 2 == 1 then k + WORD else k
  {
    var b := Rounds(n);
    RoundsTight(n);
    Pow2At32();
    if n <= HALF {
      if b >= 32 { Pow2Mono(32, b); }
      ReadBitsMod(k, 1 + b);
      SmallMod(k, Pow2(1 + b));
    } else {
      if b >= 33 { Pow2Mono(33, b); assert false; }
      if b <= 31 { Pow2Mono(b, 31); assert false; }
      ReadBitsMod(k, 32);
      SmallMod(k, WORD);
      ReadBitsSnoc(k, 33);
      assert GetBit(k, 32) <==> k % 2 == 1 by { assert Pow2(0) == 1 && k / 1 == k; }
    }
  }

  method AssertLeK(s: Context, val: seq<Form>, k: nat)
    requires s.Valid() && |val| >= 1 && AllBelow(val, s.next)
    modifies s`asserted
    ensures s.Valid() && s.asserted == old(s.asserted) + [LeBits(val, ReadBits(k, |val|), |val|)]
  {
    var n := |val|;
    ghost var bs := ReadBits(k, n);
    ReadBitsAt(k, n, 0);
    var notVal := Not(val[0]);
    var out := if GetBit(k, 0) then Top else notVal;
    var idx := 1;
    while idx < n
      invariant 1 <= idx <= n
      invariant s.Valid() && s.asserted == old(s.asserted) && s.next == old(s.next)
      invariant out == LeBits(val, bs, idx) && Below(out, s.next)
    {
      ReadBitsAt(k, n, idx);
      notVal := Not(val[idx]);
      var i1, i2 := Bot, Bot;
      if GetBit(k, idx) {
        i1, i2 := notVal, out;
      }
      var both := And2(notVal, out);
      assert Below(both, s.next) && Below(i1, s.next) && Below(i2, s.next);
      out := Or3(i1, i2, both);
      idx := idx + 1;
    }
    s.Assert(out);
  }

  lemma {:induction false} ReadBitsAt(k: nat, n: nat, i: nat)
    requires i < n
    ensures ReadBits(k, n)[i] == GetBit(k, i)
  {
    if i < n - 1 { ReadBitsAt(k, n - 1, i); }
  }

  // ---------------------------------------------------------------- at most k

  /** The constraint asserted for "at most k of lits": none, or one comparison. */
  function AtMostK(lits: seq<Form>, k: nat): seq<Form> {
    if k >= |lits| || |lits| <= 1 then []
    else
      var bits := CounterBits(lits);
      CounterCounts(lits, {});
      [LeBits(bits, ReadBits(k, |bits|), |bits|)]
  }

  /** The constraint is exact but for two cases: a single literal is never constrained,
      and past 2^31 literals an odd k is not enforced. */
  lemma AtMostKExact(lits: seq<Form>, k: nat, a: Assignment)
    requires |lits| < WORD
    ensures Models(a, AtMostK(lits, k)) <==>
            Count(lits, a) <= k || |lits| == 1 || (|lits| > HALF && k % 2 == 1)
  {
    var n := |lits|;
    if k < n && n >= 2 {
      var bits := CounterBits(lits);
      CounterCounts(lits, a);
      var bs := ReadBits(k, |bits|);
      LeBitsCompares(bits, bs, |bits|, a);
      assert bits[..|bits|] == bits && bs[..|bits|] == bs;
      ReadBitsOfK(n, k);
      assert AtMostK(lits, k) == [LeBits(bits, bs, |bits|)];
    } else {
      assert AtMostK(lits, k) == [];
    }
  }

  /** One literal that must be false is the smallest case the constraint misses. */
  lemma SingleLiteralUnconstrained(x: nat)
    ensures Models({x}, AtMostK([Var(x)], 0)) && Count([Var(x)], {x}) > 0
  {
    assert Count([Var(x)][..0], {x}) == 0;
  }

  lemma {:induction false} SumBitsBelow(x: seq<Form>, y: seq<Form>, i: nat, n: nat)
    requires i <= |x| == |y| && AllBelow(x, n) && AllBelow(y, n)
    ensures AllBelow(SumBits(x, y, i), n) && Below(Carry(x, y, i), n)
  {
    if i > 0 {
      SumBitsBelow(x, y, i - 1, n);
      var c := Carry(x, y, i - 1);
      assert Below(And2(x[i - 1], y[i - 1]), n) && Below(And2(x[i - 1], c), n) && Below(And2(y[i - 1], c), n);
      assert Below(Xor(x[i - 1], y[i - 1]), n);
    }
  }

  lemma {:induction false} CounterBelow(nums: seq<seq<Form>>, b: nat, n: nat)
    requires Uniform(nums, b) && |nums| >= 1
    requires forall i | 0 <= i < |nums| :: AllBelow(nums[i], n)
    ensures AllBelow(Counter(nums, b), n)
    decreases |nums|
  {
    if |nums| > 1 {
      PairUpBelow(nums, b, n);
      CounterBelow(PairUp(nums, b), b + 1, n);
    }
  }

  lemma {:induction false} PairUpBelow(nums: seq<seq<Form>>, b: nat, n: nat)
    requires Uniform(nums, b)
    requires forall i | 0 <= i < |nums| :: AllBelow(nums[i], n)
    ensures forall i | 0 <= i < |PairUp(nums, b)| :: AllBelow(PairUp(nums, b)[i], n)
  {
    if |nums| >= 2 {
      SumBitsBelow(nums[0], nums[1], b, n);
      PairUpBelow(nums[2..], b, n);
    }
  }

  method AssertAtMostK(s: Context, lits: seq<Form>, k: nat)
    requires s.Valid() && AllBelow(lits, s.next)
    modifies s`asserted
    ensures s.Valid() && s.asserted == old(s.asserted) + AtMostK(lits, k)
  {
    if k >= |lits| || |lits| <= 1 {
      return;
    }
    var bits := MkCounterCircuit(lits);
    CounterCounts(lits, {});
    CounterBelow(Singles(lits), 1, s.next);
    AssertLeK(s, bits, k);
  }
}
