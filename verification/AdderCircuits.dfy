/** Adders and the population counter, built as formulas in scratch arrays. */
module AdderCircuits {
  import opened Formulas
  import opened MachineIntegers

  function Pow2(n: nat): (p: nat)
    ensures p >= 1
  {
    if n == 0 then 1 else 2 * Pow2(n - 1)
  }

  // The least c with n <= 2^c.
  function CeilLog2(n: nat): nat {
    if n <= 1 then 0 else 1 + CeilLog2((n + 1) / 2)
  }

  lemma {:induction false} CeilLog2Bounds(n: nat)
    requires n >= 1
    ensures n <= Pow2(CeilLog2(n))
    ensures n >= 2 ==> Pow2(CeilLog2(n) - 1) < n
  {
    if n >= 2 {
      CeilLog2Bounds((n + 1) / 2);
    }
  }

  // The number a list of formulas denotes, least significant bit first.
  function BitsValue(bits: seq<Formula>, a: Assignment): nat {
    if bits == [] then 0
    else
      var last := |bits| - 1;
      BitsValue(bits[..last], a) + Weighted(bits[last], Pow2(last), a)
  }

  function Weighted(f: Formula, weight: nat, a: Assignment): nat {
    if Eval(f, a) then weight else 0
  }

  lemma BitsValueSnoc(bits: seq<Formula>, f: Formula, a: Assignment)
    ensures BitsValue(bits + [f], a) == BitsValue(bits, a) + Weighted(f, Pow2(|bits|), a)
  {
    assert (bits + [f])[..|bits|] == bits;
  }

  lemma {:induction false} BitsValueBound(bits: seq<Formula>, a: Assignment)
    ensures BitsValue(bits, a) < Pow2(|bits|)
  {
    if bits != [] {
      BitsValueBound(bits[..|bits| - 1], a);
    }
  }

  // The sum of the numbers of `width` bits each that lie one after the other in `bits`.
  function NumbersSum(bits: seq<Formula>, width: nat, a: Assignment): nat {
    if width == 0 || |bits| < width then 0
    else
      var start := |bits| - width;
      NumbersSum(bits[..start], width, a) + BitsValue(bits[start..], a)
  }

  lemma NumbersSumSnoc(bits: seq<Formula>, number: seq<Formula>, a: Assignment)
    requires number != []
    ensures NumbersSum(bits + number, |number|, a) == NumbersSum(bits, |number|, a) + BitsValue(number, a)
  {
    assert (bits + number)[..|bits|] == bits;
    assert (bits + number)[|bits|..] == number;
  }

  lemma {:induction false} NumbersSumOfBits(bits: seq<Formula>, a: Assignment)
    ensures NumbersSum(bits, 1, a) == CountTrue(bits, a)
  {
    if bits != [] {
      var last := |bits| - 1;
      NumbersSumOfBits(bits[..last], a);
      assert bits[last..] == [] + [bits[last]];
      BitsValueSnoc([], bits[last], a);
    }
  }

  // `sum` denotes x + y.
  ghost predicate AddsUp(sum: seq<Formula>, x: seq<Formula>, y: seq<Formula>) {
    forall a :: BitsValue(sum, a) == BitsValue(x, a) + BitsValue(y, a)
  }

  // `sum` with the carry on top denotes x + y.
  ghost predicate AddsUpWithCarry(sum: seq<Formula>, carry: Formula, x: seq<Formula>, y: seq<Formula>) {
    forall a :: BitsValue(sum, a) + Weighted(carry, Pow2(|sum|), a) == BitsValue(x, a) + BitsValue(y, a)
  }

  // The numbers of `width` bits in `bits` have the sum of those of `width'` bits in `bits'`.
  ghost predicate SameSum(bits: seq<Formula>, width: nat, bits': seq<Formula>, width': nat) {
    forall a :: NumbersSum(bits, width, a) == NumbersSum(bits', width', a)
  }

  ghost predicate FullAdder(in1: Formula, in2: Formula, cin: Formula, out: Formula, cout: Formula) {
    forall a :: Bit(out, a) + 2 * Bit(cout, a) == Bit(in1, a) + Bit(in2, a) + Bit(cin, a)
  }

  method MkFullAdder(in1: Formula, in2: Formula, cin: Formula) returns (out: Formula, cout: Formula)
    ensures FullAdder(in1, in2, cin, out, cout)
  {
    cout := Or(And(in1, in2), Or(And(in1, cin), And(in2, cin)));
    out := Xor(Xor(in1, in2), cin);
    forall a
      ensures Bit(out, a) + 2 * Bit(cout, a) == Bit(in1, a) + Bit(in2, a) + Bit(cin, a)
    {
      assert Eval(And(in1, in2), a) == (Eval(in1, a) && Eval(in2, a));
      assert Eval(And(in1, cin), a) == (Eval(in1, a) && Eval(cin, a));
      assert Eval(And(in2, cin), a) == (Eval(in2, a) && Eval(cin, a));
      assert Eval(cout.right, a) == (Eval(And(in1, cin), a) || Eval(And(in2, cin), a));
      assert Eval(Xor(in1, in2), a) == (Eval(in1, a) != Eval(in2, a));
    }
  }

  lemma RippleStep(sum: seq<Formula>, carry: Formula, x: seq<Formula>, y: seq<Formula>,
                   in1: Formula, in2: Formula, out: Formula, cout: Formula)
    requires |sum| == |x| == |y|
    requires AddsUpWithCarry(sum, carry, x, y)
    requires FullAdder(in1, in2, carry, out, cout)
    ensures AddsUpWithCarry(sum + [out], cout, x + [in1], y + [in2])
  {
    forall a
      ensures BitsValue(sum + [out], a) + Weighted(cout, Pow2(|sum + [out]|), a)
              == BitsValue(x + [in1], a) + BitsValue(y + [in2], a)
    {
      BitsValueSnoc(sum, out, a);
      BitsValueSnoc(x, in1, a);
      BitsValueSnoc(y, in2, a);
      assert Bit(out, a) + 2 * Bit(cout, a) == Bit(in1, a) + Bit(in2, a) + Bit(carry, a);
    }
  }

  lemma RippleDone(sum: seq<Formula>, carry: Formula, x: seq<Formula>, y: seq<Formula>)
    requires AddsUpWithCarry(sum, carry, x, y)
    ensures AddsUp(sum + [carry], x, y)
  {
    forall a
      ensures BitsValue(sum + [carry], a) == BitsValue(x, a) + BitsValue(y, a)
    {
      BitsValueSnoc(sum, carry, a);
    }
  }

  // One turn of the ripple: bit i of the sum and the carry out of it.
  method MkNextBit(ins: array<Formula>, p: nat, q: nat, outs: array<Formula>, o: nat, i: nat, cin: Formula)
    returns (cout: Formula)
    requires ins != outs && p + i < ins.Length && q + i < ins.Length && o + i < outs.Length
    requires AddsUpWithCarry(outs[o..o + i], cin, ins[p..p + i], ins[q..q + i])
    modifies outs
    ensures AddsUpWithCarry(outs[o..o + i + 1], cout, ins[p..p + i + 1], ins[q..q + i + 1])
    ensures forall j :: 0 <= j < outs.Length && j != o + i ==> outs[j] == old(outs[j])
  {
    ghost var sum := outs[o..o + i];
    var out;
    out, cout := MkFullAdder(ins[p + i], ins[q + i], cin);
    RippleStep(sum, cin, ins[p..p + i], ins[q..q + i], ins[p + i], ins[q + i], out, cout);
    outs[o + i] := out;
    assert outs[o..o + i + 1] == sum + [out];
    assert ins[p..p + i + 1] == ins[p..p + i] + [ins[p + i]];
    assert ins[q..q + i + 1] == ins[q..q + i] + [ins[q + i]];
  }

  /**
   Ripple-carry addition of the numbers at `p` and `q` of `ins`, written at `o` of `outs`.
   The carry-out is only defined once a first bit has been added, so there is at least one bit.
   */
  method MkAdder(numBits: nat, ins: array<Formula>, p: nat, q: nat, outs: array<Formula>, o: nat)
    requires numBits >= 1
    requires ins != outs
    requires p + numBits <= ins.Length && q + numBits <= ins.Length
    requires o + numBits + 1 <= outs.Length
    modifies outs
    ensures AddsUp(outs[o..o + numBits + 1], ins[p..p + numBits], ins[q..q + numBits])
    ensures forall j :: 0 <= j < outs.Length && !(o <= j <= o + numBits) ==> outs[j] == old(outs[j])
  {
    var cin, cout := False, False;
    var i := 0;
    while i < numBits
      invariant i <= numBits
      invariant cout == cin
      invariant forall j :: 0 <= j < outs.Length && !(o <= j < o + i) ==> outs[j] == old(outs[j])
      invariant AddsUpWithCarry(outs[o..o + i], cin, ins[p..p + i], ins[q..q + i])
    {
      cout := MkNextBit(ins, p, q, outs, o, i, cin);
      cin := cout;
      i := i + 1;
    }
    ghost var sum := outs[o..o + i];
    RippleDone(sum, cin, ins[p..p + i], ins[q..q + i]);
    outs[o + numBits] := cout;
    assert i == numBits && outs[o..o + numBits + 1] == sum + [cin];
  }

  function HalfUp(m: nat): nat {
    if m % 2 == 0 then m / 2 else m / 2 + 1
  }

  // The cells that `count` numbers of `width` bits take: count * width.
  function Span(count: nat, width: nat): nat {
    if count == 0 then 0 else Span(count - 1, width) + width
  }

  lemma {:induction false} SpanIsProduct(count: nat, width: nat)
    ensures Span(count, width) == count * width
  {
    if count > 0 {
      SpanIsProduct(count - 1, width);
      assert (count - 1) * width + width == count * width;
    }
  }

  lemma {:induction false} SpanMonotone(x: nat, y: nat, width: nat)
    requires x <= y
    ensures Span(x, width) <= Span(y, width)
  {
    if x < y {
      SpanMonotone(x, y - 1, width);
    }
  }

  // One pair added: the running sums stay equal.
  lemma PairStep(done: seq<Formula>, sum: seq<Formula>, before: seq<Formula>, first: seq<Formula>, second: seq<Formula>)
    requires 1 <= |first| == |second| && |sum| == |first| + 1
    requires SameSum(done, |sum|, before, |first|)
    requires AddsUp(sum, first, second)
    ensures SameSum(done + sum, |sum|, before + first + second, |first|)
  {
    forall a
      ensures NumbersSum(done + sum, |sum|, a) == NumbersSum(before + first + second, |first|, a)
    {
      NumbersSumSnoc(before, first, a);
      NumbersSumSnoc(before + first, second, a);
      NumbersSumSnoc(done, sum, a);
    }
  }

  // The last odd number copied with a zero on top: the running sums stay equal.
  lemma CopyStep(done: seq<Formula>, before: seq<Formula>, number: seq<Formula>)
    requires number != []
    requires SameSum(done, |number| + 1, before, |number|)
    ensures SameSum(done + (number + [False]), |number| + 1, before + number, |number|)
  {
    forall a
      ensures NumbersSum(done + (number + [False]), |number| + 1, a) == NumbersSum(before + number, |number|, a)
    {
      NumbersSumSnoc(before, number, a);
      NumbersSumSnoc(done, number + [False], a);
      BitsValueSnoc(number, False, a);
    }
  }

  // Where the i-th pair is read and written.
  lemma PairInBounds(numIns: nat, numBits: nat, i: nat)
    requires i < numIns / 2
    ensures Span(2 * i, numBits) + numBits + numBits == Span(2 * i + 2, numBits) <= Span(numIns, numBits)
    ensures Span(i, numBits + 1) + numBits + 1 == Span(i + 1, numBits + 1) <= Span(HalfUp(numIns), numBits + 1)
  {
    SpanMonotone(2 * i + 2, numIns, numBits);
    assert Span(2 * i + 1, numBits) == Span(2 * i, numBits) + numBits;
    SpanMonotone(i + 1, HalfUp(numIns), numBits + 1);
  }

  // One turn of the pairing loop: the next two numbers are added behind the sums already written.
  method MkNextPair(numBits: nat, ins: array<Formula>, inPos: nat, outs: array<Formula>, outPos: nat)
    requires numBits >= 1
    requires ins != outs
    requires inPos + numBits + numBits <= ins.Length
    requires outPos + numBits + 1 <= outs.Length
    requires SameSum(outs[..outPos], numBits + 1, ins[..inPos], numBits)
    modifies outs
    ensures SameSum(outs[..outPos + numBits + 1], numBits + 1, ins[..inPos + numBits + numBits], numBits)
  {
    ghost var done := outs[..outPos];
    MkAdder(numBits, ins, inPos, inPos + numBits, outs, outPos);
    assert outs[..outPos] == done;
    ghost var sum := outs[outPos..outPos + numBits + 1];
    ghost var first, second := ins[inPos..inPos + numBits], ins[inPos + numBits..inPos + numBits + numBits];
    PairStep(done, sum, ins[..inPos], first, second);
    assert outs[..outPos + numBits + 1] == done + sum;
    assert ins[..inPos + numBits + numBits] == ins[..inPos] + first + second;
  }

  // The odd number left over, copied behind the sums already written.
  method CopyLast(numBits: nat, ins: array<Formula>, inPos: nat, outs: array<Formula>, outPos: nat)
    requires numBits >= 1
    requires ins != outs
    requires inPos + numBits <= ins.Length
    requires outPos + numBits + 1 <= outs.Length
    requires SameSum(outs[..outPos], numBits + 1, ins[..inPos], numBits)
    modifies outs
    ensures SameSum(outs[..outPos + numBits + 1], numBits + 1, ins[..inPos + numBits], numBits)
  {
    ghost var done := outs[..outPos];
    var i := 0;
    while i < numBits
      invariant i <= numBits
      invariant outs[..outPos] == done
      invariant outs[outPos..outPos + i] == ins[inPos..inPos + i]
    {
      outs[outPos + i] := ins[inPos + i];
      assert outs[outPos..outPos + i + 1] == ins[inPos..inPos + i + 1];
      i := i + 1;
    }
    outs[outPos + numBits] := False;
    CopyStep(done, ins[..inPos], ins[inPos..inPos + numBits]);
    assert outs[..outPos + numBits + 1] == done + (ins[inPos..inPos + numBits] + [False]);
    assert ins[..inPos + numBits] == ins[..inPos] + ins[inPos..inPos + numBits];
  }

  /** Adds neighbouring numbers two by two; a last odd number is copied with a zero appended. */
  method MkAdderPairs(numBits: nat, numIns: nat, ins: array<Formula>, outs: array<Formula>) returns (outNumIns: nat)
    requires numBits >= 1
    requires ins != outs
    requires Span(numIns, numBits) <= ins.Length
    requires Span(HalfUp(numIns), numBits + 1) <= outs.Length
    modifies outs
    ensures outNumIns == HalfUp(numIns)
    ensures SameSum(outs[..Span(outNumIns, numBits + 1)], numBits + 1, ins[..Span(numIns, numBits)], numBits)
  {
    var outNumBits := numBits + 1;
    var inPos, outPos := 0, 0;
    outNumIns := if numIns % 2 == 0 then numIns / 2 else numIns / 2 + 1;
    var i := 0;
    while i < numIns / 2
      invariant i <= numIns / 2
      invariant inPos == Span(2 * i, numBits) <= ins.Length
      invariant outPos == Span(i, outNumBits) <= outs.Length
      invariant SameSum(outs[..outPos], outNumBits, ins[..inPos], numBits)
    {
      PairInBounds(numIns, numBits, i);
      MkNextPair(numBits, ins, inPos, outs, outPos);
      inPos := inPos + numBits;
      inPos := inPos + numBits;
      outPos := outPos + outNumBits;
      i := i + 1;
    }
    if numIns % 2 != 0 {
      assert numIns == 2 * i + 1 && outNumIns == i + 1;
      CopyLast(numBits, ins, inPos, outs, outPos);
      assert Span(numIns, numBits) == inPos + numBits && Span(outNumIns, outNumBits) == outPos + numBits + 1;
    } else {
      assert numIns == 2 * i && outNumIns == i;
    }
  }

  lemma EvenRound(h: nat, numBits: nat)
    requires numBits >= 1
    ensures h * (numBits + 1) <= 2 * h * numBits
  {
    assert 2 * h * numBits == h * (numBits + 1) + h * (numBits - 1);
  }

  lemma OddRound(h: nat, numBits: nat)
    requires h >= 2 && numBits >= 2
    ensures h * (numBits + 1) <= (2 * h - 1) * numBits
  {
    assert (2 * h - 1) * numBits == h * (numBits + 1) + (h - 1) * (numBits - 1) - 1;
    assert (h - 1) * (numBits - 1) >= 1;
  }

  // Every round fits the scratch arrays of n + 1 cells.
  lemma RoundFits(n: nat, numIns: nat, numBits: nat)
    requires numIns >= 2 && numBits >= 1
    requires numBits == 1 ==> numIns == n
    requires Span(numIns, numBits) <= n + 1
    ensures Span(HalfUp(numIns), numBits + 1) <= n + 1
  {
    var h := HalfUp(numIns);
    SpanIsProduct(h, numBits + 1);
    SpanIsProduct(numIns, numBits);
    if numIns % 2 == 0 {
      EvenRound(h, numBits);
    } else if numBits >= 2 {
      assert numIns == 2 * h - 1;
      OddRound(h, numBits);
    }
  }

  // `bits` denotes the number of true formulas in `lits`.
  ghost predicate Counts(bits: seq<Formula>, lits: seq<Formula>) {
    forall a :: BitsValue(bits, a) == CountTrue(lits, a)
  }

  lemma SingleNumberCounts(bits: seq<Formula>, lits: seq<Formula>)
    requires bits != []
    requires SameSum(bits, |bits|, lits, 1)
    ensures Counts(bits, lits)
  {
    forall a
      ensures BitsValue(bits, a) == CountTrue(lits, a)
    {
      assert NumbersSum(bits, |bits|, a) == NumbersSum(lits, 1, a);
      NumbersSumOfBits(lits, a);
      NumbersSumSnoc([], bits, a);
      assert [] + bits == bits;
    }
  }

  /**
   The population counter: rounds of pairwise addition between two scratch arrays that swap roles.
   The result is null when there is nothing to count.
   */
  method MkCounterCircuit(n: nat, lits: array<Formula>) returns (bits: array?<Formula>, outSz: nat)
    requires n <= lits.Length && n + 1 < UNSIGNED_LIMIT
    ensures bits == null <==> n == 0
    ensures bits != null ==>
      && fresh(bits)
      && outSz == 1 + CeilLog2(n) <= bits.Length
      && Counts(bits[..outSz], lits[..n])
  {
    if n == 0 {
      return null, 0;
    }
    var numIns, numBits := n, 1;
    var aux1 := new Formula[n + 1](_ => False);
    var aux2 := new Formula[n + 1](_ => False);
    forall i | 0 <= i < n {
      aux1[i] := lits[i];
    }
    ghost var goal := lits[..n];
    SpanIsProduct(n, 1);
    assert aux1[..n] == goal;
    while numIns > 1
      invariant numIns >= 1 && numBits >= 1
      invariant numBits == 1 ==> numIns == n
      invariant Span(numIns, numBits) <= n + 1
      invariant fresh(aux1) && fresh(aux2) && aux1 != aux2
      invariant aux1.Length == aux2.Length == n + 1
      invariant numBits + CeilLog2(numIns) == 1 + CeilLog2(n)
      invariant SameSum(aux1[..Span(numIns, numBits)], numBits, goal, 1)
      decreases numIns
    {
      RoundFits(n, numIns, numBits);
      var newNumIns := MkAdderPairs(numBits, numIns, aux1, aux2);
      numIns := newNumIns;
      numBits := numBits + 1;
      aux1, aux2 := aux2, aux1;
    }
    outSz := numBits;
    bits := aux1;
    assert Span(1, numBits) == numBits;
    SingleNumberCounts(bits[..outSz], goal);
  }
}
