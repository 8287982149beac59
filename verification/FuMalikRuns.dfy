/** Whole runs of Fu and Malik's procedure, and exactly when all of them return the right number. */
module FuMalikRuns {
  import opened Formulas
  import opened Oracle
  import opened MachineIntegers
  import opened Cardinality
  import opened MaxSat
  import opened FuMalik
  import opened FuMalikWide

  function Start(hard: seq<Formula>, soft: seq<Formula>, next: nat): State {
    var aux := FreshVars(next, |soft|);
    State(hard + SoftClauses(soft, aux), soft, aux, next + |soft|)
  }

  ghost predicate IsRun(run: seq<State>) {
    run != [] && forall i :: 0 < i < |run| ==> Follows(run[i - 1], run[i])
  }

  // The run goes from the given problem to this state in k rounds.
  ghost predicate Leads(start: State, run: seq<State>, k: nat, st: State) {
    IsRun(run) && |run| == k + 1 && run[0] == start && run[k] == st
  }

  ghost predicate Reaches(start: State, k: nat, st: State) {
    exists run :: Leads(start, run, k, st)
  }

  lemma ReachesStart(start: State)
    ensures Reaches(start, 0, start)
  {
    assert Leads(start, [start], 0, start);
  }

  lemma ReachesNext(start: State, k: nat, st: State, st': State)
    requires Reaches(start, k, st) && Follows(st, st')
    ensures Reaches(start, k + 1, st')
  {
    var run :| Leads(start, run, k, st);
    assert Leads(start, run + [st'], k + 1, st');
  }

  // Some run of a correct solver, whatever cores it picks, stops after k rounds.
  ghost predicate StopsAfter(hard: seq<Formula>, soft: seq<Formula>, next: nat, k: nat) {
    exists st :: Reaches(Start(hard, soft, next), k, st) && Ends(st)
  }

  // What k rounds keep of the least cost.
  ghost predicate Keeps(st: State, n: nat, cost: nat, k: nat) {
    && Linked(st.asserted, st.soft, st.aux, st.next) && |st.soft| == n && k <= cost
    && Attains(st.asserted, st.aux, cost - k)
    && (n <= COUNTER_LIMIT || k == 0 ==> Minimum(st.asserted, st.soft, st.aux, cost - k))
  }

  lemma KeepsStep(st: State, core: seq<Formula>, st': State, n: nat, cost: nat, k: nat)
    requires Keeps(st, n, cost, k) && RoundTo(st, core, st')
    ensures Keeps(st', n, cost, k + 1)
  {
    CoreSize(core, st.aux);
    RoundLaw(st.asserted, st.soft, st.aux, st.next, core, st'.asserted, OneBound(|core|));
    RelaxShape(st.soft, st.aux, core, st.next);
  }

  lemma {:induction false} RunKeeps(hard: seq<Formula>, soft: seq<Formula>, next: nat, cost: nat, run: seq<State>,
                                    k: nat)
    requires AllBelow(hard, next) && AllBelow(soft, next) && IsOptimum(hard, soft, cost)
    requires k < |run| && Leads(Start(hard, soft, next), run[..k + 1], k, run[k])
    ensures Keeps(run[k], |soft|, cost, k)
    decreases k
  {
    if k == 0 {
      StartMinimum(hard, soft, next, cost);
    } else {
      assert run[..k + 1][..k] == run[..k];
      RunKeeps(hard, soft, next, cost, run, k - 1);
      assert Follows(run[..k + 1][k - 1], run[..k + 1][k]);
      var core :| RoundTo(run[k - 1], core, run[k]);
      KeepsStep(run[k - 1], core, run[k], |soft|, cost, k - 1);
    }
  }

  lemma ReachesKeeps(hard: seq<Formula>, soft: seq<Formula>, next: nat, cost: nat, k: nat, st: State)
    requires AllBelow(hard, next) && AllBelow(soft, next) && IsOptimum(hard, soft, cost)
    requires Reaches(Start(hard, soft, next), k, st)
    ensures Keeps(st, |soft|, cost, k)
  {
    var run :| Leads(Start(hard, soft, next), run, k, st);
    assert run[..k + 1] == run;
    RunKeeps(hard, soft, next, cost, run, k);
  }

  // At the end nothing is left to falsify, where the least cost has been kept.
  lemma EndCost(st: State, n: nat, cost: nat, k: nat)
    requires Keeps(st, n, cost, k) && Ends(st)
    ensures k <= cost && (n <= COUNTER_LIMIT || cost <= 1 ==> k == cost)
  {
    var a :| Holds(st.asserted, a) && CountTrue(st.aux, a) == 0;
    LinkedCover(st.asserted, st.soft, st.aux, st.next, a);
  }

  /** No run stops later than the least cost says, and up to 2^31 soft constraints, or cost one, none stops earlier. */
  lemma StopsInTime(hard: seq<Formula>, soft: seq<Formula>, next: nat, cost: nat, k: nat)
    requires AllBelow(hard, next) && AllBelow(soft, next) && IsOptimum(hard, soft, cost)
    requires StopsAfter(hard, soft, next, k)
    ensures k <= cost && (|soft| <= COUNTER_LIMIT || cost <= 1 ==> k == cost)
  {
    var st :| Reaches(Start(hard, soft, next), k, st) && Ends(st);
    ReachesKeeps(hard, soft, next, cost, k, st);
    EndCost(st, |soft|, cost, k);
  }

  function AllNegated(aux: seq<Formula>): seq<Formula> {
    seq(|aux|, i requires 0 <= i < |aux| => Not(aux[i]))
  }

  // As long as some soft constraint must be falsified, all answer literals together form a core.
  lemma AllNegatedIsCore(st: State, cost: nat)
    requires Linked(st.asserted, st.soft, st.aux, st.next) && Minimum(st.asserted, st.soft, st.aux, cost) && cost >= 1
    ensures CoreOf(AllNegated(st.aux), st.asserted, st.aux)
  {
    forall a | Holds(st.asserted, a)
      ensures !Holds(AllNegated(st.aux), a)
    {
      LinkedCover(st.asserted, st.soft, st.aux, st.next, a);
      SomeAnswer(st.aux, a);
    }
  }

  lemma SomeAnswer(aux: seq<Formula>, a: Assignment)
    requires CountTrue(aux, a) >= 1
    ensures !Holds(AllNegated(aux), a)
  {
    CountTrueNone(aux, a);
    var f :| f in aux && Eval(f, a);
    var i :| 0 <= i < |aux| && aux[i] == f;
    assert AllNegated(aux)[i] in AllNegated(aux) && !Eval(AllNegated(aux)[i], a);
  }

  lemma NothingAdded(lits: seq<Formula>, bound: nat)
    requires |lits| <= bound
    ensures Encodes([], lits, bound)
  {
    assert forall a :: CountTrue(lits, a) <= |lits|;
  }

  // Beyond 2^31 that core ends the search: whatever formula the round asserts of the block variables, the next check
  // succeeds.
  lemma WideRound(st: State, core: seq<Formula>, st': State)
    requires Linked(st.asserted, st.soft, st.aux, st.next) && Satisfiable(st.asserted)
    requires core == AllNegated(st.aux) && |core| > COUNTER_LIMIT && RoundTo(st, core, st')
    ensures Ends(st')
  {
    var r := Relax(st.soft, st.aux, core, st.next);
    var added := st'.asserted[|st.asserted + r.clauses|..];
    assert st'.asserted == st.asserted + r.clauses + added;
    assert forall i :: 0 <= i < |st.aux| ==> Not(st.aux[i]) == core[i];
    WideCoreEndsSearch(st.asserted, st.soft, st.aux, st.next, core, added);
  }

  // There is such a round.
  lemma WideRoundExists(st: State, core: seq<Formula>) returns (st': State)
    requires Linked(st.asserted, st.soft, st.aux, st.next)
    requires core == AllNegated(st.aux) && CoreOf(core, st.asserted, st.aux) && |core| > COUNTER_LIMIT
    ensures RoundTo(st, core, st')
  {
    var r := Relax(st.soft, st.aux, core, st.next);
    st' := State(st.asserted + r.clauses, r.soft, r.aux, r.next);
    BlockTotal(st.soft, st.aux, core, st.next);
    NothingAdded(r.block, |core|);
    assert st'.asserted[|st.asserted + r.clauses|..] == [];
  }

  lemma WideStops(hard: seq<Formula>, soft: seq<Formula>, next: nat, cost: nat)
    requires AllBelow(hard, next) && AllBelow(soft, next) && IsOptimum(hard, soft, cost)
    requires |soft| > COUNTER_LIMIT && cost >= 1
    ensures StopsAfter(hard, soft, next, 1)
  {
    var st := Start(hard, soft, next);
    StartMinimum(hard, soft, next, cost);
    AllNegatedIsCore(st, cost);
    var core := AllNegated(st.aux);
    var st' := WideRoundExists(st, core);
    WideRound(st, core, st');
    ReachesStart(st);
    ReachesNext(st, 0, st, st');
  }

  lemma NoRoundNeeded(hard: seq<Formula>, soft: seq<Formula>, next: nat)
    requires AllBelow(hard, next) && AllBelow(soft, next) && IsOptimum(hard, soft, 0)
    ensures StopsAfter(hard, soft, next, 0)
  {
    StartMinimum(hard, soft, next, 0);
    ReachesStart(Start(hard, soft, next));
  }

  /**
   Every run stops after as many rounds as constraints must be falsified if and only if there are at most 2^31 soft
   constraints or at most one must be falsified.
   */
  lemma RoundsExact(hard: seq<Formula>, soft: seq<Formula>, next: nat, cost: nat)
    requires AllBelow(hard, next) && AllBelow(soft, next) && IsOptimum(hard, soft, cost)
    ensures (forall k :: StopsAfter(hard, soft, next, k) ==> k == cost) <==> |soft| <= COUNTER_LIMIT || cost <= 1
  {
    if |soft| <= COUNTER_LIMIT || cost <= 1 {
      forall k | StopsAfter(hard, soft, next, k)
        ensures k == cost
      {
        StopsInTime(hard, soft, next, cost, k);
      }
    } else {
      WideStops(hard, soft, next, cost);
    }
  }

  // Some run returns this number.
  ghost predicate CanReturn(hard: seq<Formula>, soft: seq<Formula>, next: nat, v: int) {
    exists k: nat :: k <= |soft| < UNSIGNED_LIMIT && StopsAfter(hard, soft, next, k) && v == ToInt(|soft| - k)
  }

  /**
   Every run returns the number of soft constraints that can be satisfied together if and only if that number is below
   2^31 and there are at most 2^31 soft constraints.
   */
  lemma ResultExact(hard: seq<Formula>, soft: seq<Formula>, next: nat, cost: nat)
    requires AllBelow(hard, next) && AllBelow(soft, next) && IsOptimum(hard, soft, cost) && |soft| + 1 < UNSIGNED_LIMIT
    ensures (forall v :: CanReturn(hard, soft, next, v) ==> v == |soft| - cost)
            <==> |soft| <= INT_LIMIT && |soft| - cost < INT_LIMIT
  {
    OptimumUnique(hard, soft, cost);
    if |soft| <= INT_LIMIT && |soft| - cost < INT_LIMIT {
      forall v | CanReturn(hard, soft, next, v)
        ensures v == |soft| - cost
      {
        var k: nat :| k <= |soft| && StopsAfter(hard, soft, next, k) && v == ToInt(|soft| - k);
        StopsInTime(hard, soft, next, cost, k);
      }
    } else {
      WrongResult(hard, soft, next, cost);
    }
  }

  lemma WrongResult(hard: seq<Formula>, soft: seq<Formula>, next: nat, cost: nat)
    requires AllBelow(hard, next) && AllBelow(soft, next) && IsOptimum(hard, soft, cost) && |soft| + 1 < UNSIGNED_LIMIT
    requires cost <= |soft| && (|soft| > INT_LIMIT || |soft| - cost >= INT_LIMIT)
    ensures exists v :: CanReturn(hard, soft, next, v) && v < 0
  {
    var k := if cost == 0 then 0 else 1;
    if cost == 0 {
      NoRoundNeeded(hard, soft, next);
    } else {
      WideStops(hard, soft, next, cost);
    }
    assert StopsAfter(hard, soft, next, k);
    assert CanReturn(hard, soft, next, ToInt(|soft| - k));
  }

  /** With 2^32 - 1 soft constraints that hold together, the result is the -1 of unsatisfiable hard constraints. */
  lemma AllHoldLooksUnsatisfiable(hard: seq<Formula>, soft: seq<Formula>, next: nat)
    requires AllBelow(hard, next) && AllBelow(soft, next) && IsOptimum(hard, soft, 0) && |soft| == UNSIGNED_LIMIT - 1
    ensures CanReturn(hard, soft, next, -1)
  {
    NoRoundNeeded(hard, soft, next);
  }

  // What the procedure promises of the number it returns after k rounds.
  ghost predicate IsResult(hard: seq<Formula>, soft: seq<Formula>, next: nat, k: nat, v: int) {
    && StopsAfter(hard, soft, next, k) && k <= |soft| < UNSIGNED_LIMIT && v == ToInt(|soft| - k)
    && forall cost: nat :: IsOptimum(hard, soft, cost) ==>
      && k <= cost && (|soft| <= COUNTER_LIMIT || cost <= 1 ==> k == cost)
      && (|soft| <= INT_LIMIT && |soft| - cost < INT_LIMIT ==> v == |soft| - cost)
  }

  lemma StopsWithResult(hard: seq<Formula>, soft: seq<Formula>, next: nat, cost: nat, k: nat)
    requires AllBelow(hard, next) && AllBelow(soft, next) && IsOptimum(hard, soft, cost) && |soft| + 1 < UNSIGNED_LIMIT
    requires StopsAfter(hard, soft, next, k)
    ensures k <= |soft| && IsResult(hard, soft, next, k, ToInt(|soft| - k)) && ToInt(|soft| - k) != -1
  {
    OptimumUnique(hard, soft, cost);
    StopsInTime(hard, soft, next, cost, k);
  }

  // One turn of the main loop.
  method Turn(ctx: Context, s: Solver, softCnstrs: array<Formula>, auxVars: array<Formula>, ghost hard: seq<Formula>,
              ghost soft: seq<Formula>, ghost next: nat, ghost cost: nat, ghost k: nat) returns (done: bool)
    requires AllBelow(hard, next) && AllBelow(soft, next) && IsOptimum(hard, soft, cost)
    requires softCnstrs != auxVars && softCnstrs.Length == |soft| && |soft| + 1 < UNSIGNED_LIMIT
    requires Reaches(Start(hard, soft, next), k, State(s.asserted, softCnstrs[..], auxVars[..], ctx.next))
    modifies ctx, s, softCnstrs, auxVars
    ensures done ==> StopsAfter(hard, soft, next, k)
    ensures !done ==> k < cost
    ensures !done ==> Reaches(Start(hard, soft, next), k + 1, State(s.asserted, softCnstrs[..], auxVars[..], ctx.next))
  {
    ghost var st := State(s.asserted, softCnstrs[..], auxVars[..], ctx.next);
    ReachesKeeps(hard, soft, next, cost, k, st);
    done := FuMalikMaxSatStep(ctx, s, softCnstrs, auxVars);
    if !done {
      ghost var st' := State(s.asserted, softCnstrs[..], auxVars[..], ctx.next);
      ReachesNext(Start(hard, soft, next), k, st, st');
      ReachesKeeps(hard, soft, next, cost, k + 1, st');
    }
  }

  // The rounds, until no answer literal is needed.
  method Rounds(ctx: Context, s: Solver, softCnstrs: array<Formula>, auxVars: array<Formula>,
                ghost hard: seq<Formula>, ghost soft: seq<Formula>, ghost next: nat) returns (r: int)
    requires AllBelow(hard, next) && AllBelow(soft, next) && Satisfiable(hard)
    requires softCnstrs != auxVars && softCnstrs.Length == |soft| && |soft| + 1 < UNSIGNED_LIMIT
    requires State(s.asserted, softCnstrs[..], auxVars[..], ctx.next) == Start(hard, soft, next)
    modifies ctx, s, softCnstrs, auxVars
    ensures r != -1 && exists k :: IsResult(hard, soft, next, k, r)
  {
    ghost var cost := OptimumExists(hard, soft);
    ReachesStart(Start(hard, soft, next));
    var k := 0;
    var done := false;
    while !done
      invariant k <= cost
      invariant done ==> StopsAfter(hard, soft, next, k)
      invariant !done ==>
        Reaches(Start(hard, soft, next), k, State(s.asserted, softCnstrs[..], auxVars[..], ctx.next))
      decreases !done, cost - k
    {
      done := Turn(ctx, s, softCnstrs, auxVars, hard, soft, next, cost, k);
      if !done {
        k := k + 1;
      }
    }
    StopsWithResult(hard, soft, next, cost, k);
    r := ToInt(softCnstrs.Length - k);
  }

  /**
   The procedure stops after some number of unsatisfiable rounds, as some run from the given problem does, and returns
   what is left of the number of soft constraints, converted to int; -1 stands for unsatisfiable hard constraints.  It
   never counts too few constraints as satisfied.
   */
  method FuMalikMaxSat(ctx: Context, s: Solver, hardCnstrs: array<Formula>, softCnstrs: array<Formula>) returns (r: int)
    requires hardCnstrs != softCnstrs
    requires AllBelow(s.asserted + hardCnstrs[..], ctx.next) && AllBelow(softCnstrs[..], ctx.next)
    requires softCnstrs.Length + 1 < UNSIGNED_LIMIT
    modifies ctx, s, softCnstrs
    ensures r == -1 <==> !Satisfiable(old(s.asserted + hardCnstrs[..]))
    ensures r != -1 ==>
      exists k :: IsResult(old(s.asserted + hardCnstrs[..]), old(softCnstrs[..]), old(ctx.next), k, r)
  {
    ghost var hard, soft, next := s.asserted + hardCnstrs[..], softCnstrs[..], ctx.next;
    AssertHardConstraints(s, hardCnstrs);
    var isSat := s.Check([]);
    if isSat.Unsat? {
      assert forall a :: Holds(isSat.core, a);
      return -1;
    }
    assert Satisfiable(hard);
    if softCnstrs.Length == 0 {
      NothingSoft(hard, soft, next);
      return 0;
    }
    var auxVars := AssertSoftConstraints(ctx, s, softCnstrs);
    r := Rounds(ctx, s, softCnstrs, auxVars, hard, soft, next);
  }

  lemma NothingSoft(hard: seq<Formula>, soft: seq<Formula>, next: nat)
    requires AllBelow(hard, next) && Satisfiable(hard) && soft == []
    ensures IsResult(hard, soft, next, 0, 0)
  {
    var cost := OptimumExists(hard, soft);
    OptimumUnique(hard, soft, cost);
    NoRoundNeeded(hard, soft, next);
    StopsWithResult(hard, soft, next, cost, 0);
  }
}
