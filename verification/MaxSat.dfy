/** What the MaxSAT procedures share: the optimum, answer literals, and asserting hard and soft constraints. */
module MaxSat {
  import opened Formulas
  import opened Lists
  import opened MachineIntegers
  import opened Oracle

  // `cost` is the least number of soft constraints falsified by an assignment that satisfies the hard ones.
  ghost predicate IsOptimum(hard: seq<Formula>, soft: seq<Formula>, cost: nat) {
    && (exists a :: Holds(hard, a) && CountFalse(soft, a) == cost)
    && (forall a :: Holds(hard, a) ==> CountFalse(soft, a) >= cost)
  }

  lemma OptimumExists(hard: seq<Formula>, soft: seq<Formula>) returns (cost: nat)
    requires Satisfiable(hard)
    ensures IsOptimum(hard, soft, cost)
  {
    var a :| Holds(hard, a);
    cost := OptimumBelow(hard, soft, a);
  }

  lemma OptimumUnique(hard: seq<Formula>, soft: seq<Formula>, cost: nat)
    requires IsOptimum(hard, soft, cost)
    ensures cost <= |soft| && forall c: nat :: IsOptimum(hard, soft, c) ==> c == cost
  {
    var a :| Holds(hard, a) && CountFalse(soft, a) == cost;
    forall c: nat | IsOptimum(hard, soft, c)
      ensures c == cost
    {
      var b :| Holds(hard, b) && CountFalse(soft, b) == c;
    }
  }

  // `v` is the number of soft constraints that can be satisfied together, converted to int: it is that number if and
  // only if that number is below 2^31.
  ghost predicate IsMaxSat(hard: seq<Formula>, soft: seq<Formula>, v: int) {
    forall cost: nat :: IsOptimum(hard, soft, cost) ==>
      && cost <= |soft| < UNSIGNED_LIMIT + cost && v == ToInt(|soft| - cost)
      && (v == |soft| - cost <==> |soft| - cost < INT_LIMIT)
  }

  lemma OptimumConverted(hard: seq<Formula>, soft: seq<Formula>, cost: nat)
    requires IsOptimum(hard, soft, cost) && |soft| + 1 < UNSIGNED_LIMIT
    ensures cost <= |soft| && IsMaxSat(hard, soft, ToInt(|soft| - cost)) && ToInt(|soft| - cost) != -1
  {
    OptimumUnique(hard, soft, cost);
  }

  lemma OptimumBelow(hard: seq<Formula>, soft: seq<Formula>, a: Assignment) returns (cost: nat)
    requires Holds(hard, a)
    ensures IsOptimum(hard, soft, cost)
    decreases CountFalse(soft, a)
  {
    if b :| Holds(hard, b) && CountFalse(soft, b) < CountFalse(soft, a) {
      cost := OptimumBelow(hard, soft, b);
    } else {
      cost := CountFalse(soft, a);
    }
  }

  // Answer literals

  function FreshVars(next: nat, n: nat): (vs: seq<Formula>) {
    seq(n, i requires 0 <= i < n => Var(Const(next + i)))
  }

  function SoftClauses(soft: seq<Formula>, aux: seq<Formula>): seq<Formula>
    requires |soft| == |aux|
  {
    seq(|soft|, i requires 0 <= i < |soft| => Or(soft[i], aux[i]))
  }

  lemma FreshVarsBelow(next: nat, n: nat)
    ensures AllBelow(FreshVars(next, n), next + n)
    ensures Distinct(FreshVars(next, n))
  {
    forall f | f in FreshVars(next, n)
      ensures Below(f, next + n)
    {
      BelowFromSymbols(f, next + n);
    }
  }

  lemma SoftClausesBelow(soft: seq<Formula>, aux: seq<Formula>, next: nat)
    requires |soft| == |aux|
    requires AllBelow(soft, next) && AllBelow(aux, next)
    ensures AllBelow(SoftClauses(soft, aux), next)
  {
    forall f | f in SoftClauses(soft, aux)
      ensures Below(f, next)
    {
      var i :| 0 <= i < |soft| && f == Or(soft[i], aux[i]);
      assert Below(soft[i], next) && Below(aux[i], next);
    }
  }

  lemma {:induction false} CountComplement(fs: seq<Formula>, a: Assignment, gs: seq<Formula>, b: Assignment)
    requires |fs| == |gs|
    requires forall i :: 0 <= i < |fs| ==> Eval(fs[i], a) != Eval(gs[i], b)
    ensures CountTrue(fs, a) + CountTrue(gs, b) == |fs|
  {
    if fs != [] {
      CountComplement(fs[..|fs| - 1], a, gs[..|gs| - 1], b);
    }
  }

  // An answer literal is true wherever its soft constraint is false.
  lemma AnswersCoverFalsified(soft: seq<Formula>, aux: seq<Formula>, a: Assignment)
    requires |soft| == |aux|
    requires forall i :: 0 <= i < |soft| ==> Eval(soft[i], a) || Eval(aux[i], a)
    ensures CountFalse(soft, a) <= CountTrue(aux, a)
    decreases |soft|
  {
    if soft != [] {
      AnswersCoverFalsified(soft[..|soft| - 1], aux[..|aux| - 1], a);
    }
  }

  lemma ClausesHold(soft: seq<Formula>, aux: seq<Formula>, a: Assignment)
    requires |soft| == |aux|
    ensures Holds(SoftClauses(soft, aux), a) <==> forall i :: 0 <= i < |soft| ==> Eval(soft[i], a) || Eval(aux[i], a)
  {
    var clauses := SoftClauses(soft, aux);
    forall i | 0 <= i < |soft|
      ensures Eval(clauses[i], a) == (Eval(soft[i], a) || Eval(aux[i], a))
    {
    }
    assert Holds(clauses, a) <==> forall i :: 0 <= i < |clauses| ==> Eval(clauses[i], a);
  }

  // Fresh answer literals can be set to match any assignment.
  lemma AnswerExtension(hard: seq<Formula>, soft: seq<Formula>, next: nat, a: Assignment) returns (b: Assignment)
    requires AllBelow(hard, next) && AllBelow(soft, next)
    requires Holds(hard, a)
    ensures Holds(hard, b) && Holds(SoftClauses(soft, FreshVars(next, |soft|)), b)
    ensures CountTrue(FreshVars(next, |soft|), b) == CountFalse(soft, a)
  {
    var aux := FreshVars(next, |soft|);
    b := Restrict(a, next) + set i | 0 <= i < |soft| && !Eval(soft[i], a) :: Const(next + i);
    assert SameBelow(next, a, b);
    HoldsBelow(hard, next, a, b);
    forall i | 0 <= i < |soft|
      ensures Eval(soft[i], a) == Eval(soft[i], b) && Eval(aux[i], b) == !Eval(soft[i], a)
    {
      assert Below(soft[i], next);
    }
    ClausesHold(soft, aux, b);
    CountComplement(soft, a, aux, b);
  }

  method AssertHardConstraints(s: Solver, cnstrs: array<Formula>)
    modifies s`asserted
    ensures s.asserted == old(s.asserted) + cnstrs[..]
  {
    var i := 0;
    while i < cnstrs.Length
      invariant i <= cnstrs.Length
      invariant s.asserted == old(s.asserted) + cnstrs[..i]
    {
      s.Assert(cnstrs[i]);
      i := i + 1;
    }
    assert cnstrs[..] == cnstrs[..i];
  }

  method MkFreshBoolVarArray(ctx: Context, n: nat) returns (result: array<Formula>)
    modifies ctx
    ensures fresh(result)
    ensures result[..] == FreshVars(old(ctx.next), n)
    ensures ctx.next == old(ctx.next) + n
  {
    result := new Formula[n](_ => False);
    var i := 0;
    while i < n
      invariant i <= n
      invariant ctx.next == old(ctx.next) + i
      invariant forall j :: 0 <= j < i ==> result[j] == Var(Const(old(ctx.next) + j))
      modifies ctx, result
    {
      var v := ctx.MkFresh();
      result[i] := v;
      i := i + 1;
    }
  }

  method AssertSoftConstraints(ctx: Context, s: Solver, cnstrs: array<Formula>) returns (auxVars: array<Formula>)
    modifies ctx, s`asserted
    ensures fresh(auxVars)
    ensures auxVars[..] == FreshVars(old(ctx.next), cnstrs.Length)
    ensures ctx.next == old(ctx.next) + cnstrs.Length
    ensures s.asserted == old(s.asserted) + SoftClauses(cnstrs[..], auxVars[..])
  {
    auxVars := MkFreshBoolVarArray(ctx, cnstrs.Length);
    assert auxVars.Length == |auxVars[..]|;
    ghost var clauses := SoftClauses(cnstrs[..], auxVars[..]);
    var i := 0;
    while i < cnstrs.Length
      invariant i <= cnstrs.Length
      invariant s.asserted == old(s.asserted) + clauses[..i]
      modifies s`asserted
    {
      var assumption := cnstrs[i];
      s.Assert(Or(assumption, auxVars[i]));
      i := i + 1;
    }
    assert clauses[..i] == clauses;
  }
}
