/** The bitwise comparator and the at-most-k constraint, asserted through the population counter. */
module Cardinality {
  import opened Formulas
  import opened AdderCircuits
  import opened MachineIntegers
  import opened Oracle

  const COUNTER_LIMIT: nat := 0x8000_0000

  // Bit `idx` of a 32-bit number; the index is taken modulo the word size.
  predicate GetBit(val: nat, idx: nat) {
    val / Pow2(idx % 32) % 2 == 1
  }

  // The number whose bits 0..n-1 are the ones GetBit reports.
  function ReadBits(k: nat, n: nat): nat {
    if n == 0 then 0 else ReadBits(k, n - 1) + if GetBit(k, n - 1) then Pow2(n - 1) else 0
  }

  lemma {:induction false} ReadBitsBound(k: nat, n: nat)
    ensures ReadBits(k, n) < Pow2(n)
  {
    if n > 0 {
      ReadBitsBound(k, n - 1);
    }
  }

  lemma ModDoubled(k: nat, m: nat)
    requires m >= 1
    ensures k % (2 * m) == k % m + if k / m % 2 == 1 then m else 0
  {
    var q, r := k / m, k % m;
    var h, b := q / 2, q % 2;
    assert k == q * m + r;
    assert q * m == h * (2 * m) + b * m;
    var rest := k % m + if k / m % 2 == 1 then m else 0;
    assert k == h * (2 * m) + rest;
    QuotientUnique(k, 2 * m, h, rest);
  }

  lemma AtLeastOnce(q: nat, m: nat)
    requires q >= 1
    ensures q * m >= m
  {
    assert q * m == (q - 1) * m + m;
  }

  lemma QuotientUnique(k: nat, m: nat, q: nat, r: nat)
    requires 0 <= r < m
    requires k == q * m + r
    ensures k % m == r
  {
    var q', r' := k / m, k % m;
    assert (q' - q) * m == r - r';
    if q' > q {
      AtLeastOnce(q' - q, m);
      assert false;
    }
    if q' < q {
      AtLeastOnce(q - q', m);
      assert false;
    }
  }

  lemma ReadBitsNext(k: nat, n: nat, m: nat)
    requires n < 32 && m == Pow2(n) && ReadBits(k, n) == k % m
    ensures ReadBits(k, n + 1) == k % (2 * m)
  {
    ModDoubled(k, m);
    InWord(k, n);
  }

  lemma {:induction false} InWord(k: nat, idx: nat)
    requires idx < 32
    ensures GetBit(k, idx) == (k / Pow2(idx) % 2 == 1)
  {
    assert idx % 32 == idx;
  }

  lemma {:induction false} ReadBitsInWord(k: nat, n: nat)
    requires n <= 32
    ensures ReadBits(k, n) == k % Pow2(n)
  {
    if n > 0 {
      ReadBitsInWord(k, n - 1);
      ReadBitsNext(k, n - 1, Pow2(n - 1));
    }
  }

  lemma WordSize()
    ensures Pow2(31) == COUNTER_LIMIT
    ensures Pow2(32) == UNSIGNED_LIMIT
  {
    assert Pow2(8) == 256;
    assert Pow2(16) == 65536;
    assert Pow2(24) == 0x100_0000;
  }

  // Above the word size the index wraps: bit 32 is read as bit 0.
  lemma ReadBitsWrapped(k: nat)
    requires k < UNSIGNED_LIMIT
    ensures ReadBits(k, 33) == k + if k % 2 == 1 then UNSIGNED_LIMIT else 0
  {
    WordSize();
    ReadBitsInWord(k, 32);
  }

  // `out` states that the number in `val` is at most `bound`.
  ghost predicate Compares(out: Formula, val: seq<Formula>, bound: nat) {
    forall a :: Eval(out, a) <==> BitsValue(val, a) <= bound
  }

  lemma CompareFirst(val: Formula, k: nat, out: Formula)
    requires out == if GetBit(k, 0) then True else Not(val)
    ensures Compares(out, [val], ReadBits(k, 1))
  {
    forall a
      ensures Eval(out, a) <==> BitsValue([val], a) <= ReadBits(k, 1)
    {
      BitsValueSnoc([], val, a);
      assert [] + [val] == [val];
      assert ReadBits(k, 1) == ReadBits(k, 0) + if GetBit(k, 0) then Pow2(0) else 0;
    }
  }

  lemma CompareNext(low: Formula, val: seq<Formula>, next: Formula, k: nat, out: Formula)
    requires Compares(low, val, ReadBits(k, |val|))
    requires out == if GetBit(k, |val|) then Or(Not(next), Or(low, And(Not(next), low)))
                    else Or(False, Or(False, And(Not(next), low)))
    ensures Compares(out, val + [next], ReadBits(k, |val| + 1))
  {
    forall a
      ensures Eval(out, a) <==> BitsValue(val + [next], a) <= ReadBits(k, |val| + 1)
    {
      BitsValueSnoc(val, next, a);
      BitsValueBound(val, a);
      ReadBitsBound(k, |val|);
      assert Eval(And(Not(next), low), a) == (!Eval(next, a) && Eval(low, a));
      assert Eval(out.right, a) == (Eval(out.right.left, a) || Eval(And(Not(next), low), a));
      assert Eval(out, a)
             == if GetBit(k, |val|) then !Eval(next, a) || Eval(low, a) else !Eval(next, a) && Eval(low, a);
    }
  }

  method AssertLeK(s: Solver, n: nat, val: array<Formula>, k: nat)
    requires 1 <= n <= val.Length
    modifies s`asserted
    ensures |s.asserted| == |old(s.asserted)| + 1 && s.asserted[..|old(s.asserted)|] == old(s.asserted)
    ensures Compares(s.asserted[|old(s.asserted)|], val[..n], ReadBits(k, n))
  {
    var notVal := Not(val[0]);
    var out;
    if GetBit(k, 0) {
      out := True;
    } else {
      out := notVal;
    }
    CompareFirst(val[0], k, out);
    assert val[..1] == [val[0]];
    var idx := 1;
    while idx < n
      invariant 1 <= idx <= n
      invariant s.asserted == old(s.asserted)
      invariant Compares(out, val[..idx], ReadBits(k, idx))
    {
      notVal := Not(val[idx]);
      var i1, i2;
      if GetBit(k, idx) {
        i1, i2 := notVal, out;
      } else {
        i1, i2 := False, False;
      }
      ghost var low := out;
      out := Or(i1, Or(i2, And(notVal, out)));
      CompareNext(low, val[..idx], val[idx], k, out);
      assert val[..idx + 1] == val[..idx] + [val[idx]];
      idx := idx + 1;
    }
    s.Assert(out);
  }

  // The added assertions hold exactly when at most `bound` of `lits` do.
  ghost predicate Encodes(added: seq<Formula>, lits: seq<Formula>, bound: nat) {
    && |added| <= 1
    && forall a :: Holds(added, a) <==> CountTrue(lits, a) <= bound
  }

  // The bound that AssertAtMostK really enforces on n literals.
  function Enforced(n: nat, k: nat): nat {
    if k >= n || n <= 1 then n else ReadBits(k, 1 + CeilLog2(n))
  }

  method AssertAtMostK(s: Solver, n: nat, lits: array<Formula>, k: nat)
    requires n <= lits.Length && (k < n ==> n + 1 < UNSIGNED_LIMIT)
    modifies s`asserted
    ensures old(s.asserted) <= s.asserted
    ensures Encodes(s.asserted[|old(s.asserted)|..], lits[..n], Enforced(n, k))
  {
    ghost var before := s.asserted;
    if k >= n || n <= 1 {
      assert s.asserted[|before|..] == [];
      return;
    }
    var counterBits, counterBitsSz := MkCounterCircuit(n, lits);
    AssertLeK(s, counterBitsSz, counterBits, k);
    ghost var out := s.asserted[|before|];
    assert s.asserted[|before|..] == [out];
    forall a
      ensures Holds([out], a) <==> CountTrue(lits[..n], a) <= Enforced(n, k)
    {
      assert BitsValue(counterBits[..counterBitsSz], a) == CountTrue(lits[..n], a);
    }
  }

  // The bound that at-most-one comes to: beyond the counter's range nothing is enforced.
  function OneBound(n: nat): nat {
    if n <= COUNTER_LIMIT then 1 else n
  }

  lemma OneBoundEnforced(n: nat, count: nat)
    requires n < UNSIGNED_LIMIT && count <= n
    ensures count <= Enforced(n, 1) <==> count <= OneBound(n)
  {
    if 1 < n {
      EnforcedCircuit(n, 1);
    }
  }

  method AssertAtMostOne(s: Solver, n: nat, lits: array<Formula>)
    requires n <= lits.Length && n + 1 < UNSIGNED_LIMIT
    modifies s`asserted
    ensures old(s.asserted) <= s.asserted
    ensures Encodes(s.asserted[|old(s.asserted)|..], lits[..n], OneBound(n))
  {
    AssertAtMostK(s, n, lits, 1);
    ghost var added := s.asserted[|old(s.asserted)|..];
    forall a
      ensures Holds(added, a) <==> CountTrue(lits[..n], a) <= OneBound(n)
    {
      OneBoundEnforced(n, CountTrue(lits[..n], a));
    }
  }

  predicate Within(count: nat, bound: nat) {
    count <= bound
  }

  // Counts up to n meet the enforced bound exactly when they are at most k.
  ghost predicate Exact(n: nat, k: nat) {
    forall c: nat :: Within(c, n) ==> (Within(c, Enforced(n, k)) <==> Within(c, k))
  }

  /**
   At-most-k means what it says except in two cases: one literal with k = 0, where nothing is asserted,
   and more than 2^31 literals with an odd k, where the wrapped bit index turns the bound into a vacuous one.
   */
  lemma EnforcedExact(n: nat, k: nat)
    requires k < n ==> n + 1 < UNSIGNED_LIMIT
    ensures Exact(n, k) <==> (k >= n || (n >= 2 && (n <= COUNTER_LIMIT || k % 2 == 0)))
  {
    if k < n {
      if n == 1 {
        assert Within(1, n) && Within(1, Enforced(n, k)) && !Within(1, k);
      } else {
        EnforcedCircuit(n, k);
        if n > COUNTER_LIMIT && k % 2 == 1 {
          assert Within(n, n) && Within(n, Enforced(n, k)) && !Within(n, k);
        }
      }
    }
  }

  lemma EnforcedCircuit(n: nat, k: nat)
    requires 2 <= n < UNSIGNED_LIMIT && k < n
    ensures Enforced(n, k) == k + if n > COUNTER_LIMIT && k % 2 == 1 then UNSIGNED_LIMIT else 0
  {
    WordSize();
    CeilLog2Bounds(n);
    var w := 1 + CeilLog2(n);
    if n <= COUNTER_LIMIT {
      if w > 32 {
        Pow2Monotone(31, w - 2);
        assert false;
      }
      ReadBitsInWord(k, w);
      Pow2Monotone(w - 1, w);
      QuotientUnique(k, Pow2(w), 0, k);
    } else {
      if w < 33 {
        Pow2Monotone(w - 1, 31);
        assert false;
      }
      if w > 33 {
        Pow2Monotone(32, w - 2);
        assert false;
      }
      ReadBitsWrapped(k);
    }
  }

  lemma {:induction false} Pow2Monotone(m: nat, n: nat)
    requires m <= n
    ensures Pow2(m) <= Pow2(n)
  {
    if m < n {
      Pow2Monotone(m, n - 1);
    }
  }

  // The constraint depends on nothing but its literals.
  lemma EncodesBelow(added: seq<Formula>, lits: seq<Formula>, bound: nat, next: nat)
    requires Encodes(added, lits, bound) && AllBelow(lits, next)
    ensures AllBelow(added, next)
  {
    forall f | f in added
      ensures Below(f, next)
    {
      forall a, b | SameBelow(next, a, b)
        ensures Eval(f, a) == Eval(f, b)
      {
        assert added == [f];
        CountTrueBelow(lits, next, a, b);
        assert Holds(added, a) <==> Eval(f, a);
        assert Holds(added, b) <==> Eval(f, b);
      }
    }
  }
}
