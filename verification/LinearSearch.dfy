/** MaxSAT by linear search: tighten an at-most-k constraint on the answer literals until it is unsatisfiable. */
module LinearSearch {
  import opened Formulas
  import opened Oracle
  import opened Cardinality
  import opened MachineIntegers
  import opened MaxSat
  import opened SearchRuns

  // Bug is the branch that stops the program because a model disables more constraints than were allowed.
  datatype Outcome = Value(n: int) | Bug

  method GetNumDisabledSoftConstraints(m: Assignment, auxVars: array<Formula>) returns (numDisabled: nat)
    ensures numDisabled == CountTrue(auxVars[..], m)
  {
    numDisabled := 0;
    var i := 0;
    while i < auxVars.Length
      invariant i <= auxVars.Length
      invariant numDisabled == CountTrue(auxVars[..i], m)
    {
      if Eval(auxVars[i], m) {
        numDisabled := numDisabled + 1;
      }
      assert auxVars[..i + 1] == auxVars[..i] + [auxVars[i]];
      CountTrueSnoc(auxVars[..i], auxVars[i], m);
      i := i + 1;
    }
    assert auxVars[..] == auxVars[..i];
  }

  // The search state: some model of the relaxed problem disables k + 1 constraints,
  // and the constraints piled up so far keep every model that disables at most k + 1.
  ghost predicate SearchState(base: seq<Formula>, asserted: seq<Formula>, aux: seq<Formula>, k: nat) {
    && k < |aux|
    && (forall a :: Holds(asserted, a) ==> Holds(base, a))
    && (forall a :: Holds(base, a) && CountTrue(aux, a) <= k + 1 ==> Holds(asserted, a))
    && (exists a :: Holds(base, a) && CountTrue(aux, a) == k + 1)
  }

  // The same once at-most-k has been asserted.
  ghost predicate Tightened(base: seq<Formula>, asserted: seq<Formula>, aux: seq<Formula>, k: nat) {
    && (forall a :: Holds(asserted, a) ==> Holds(base, a) && CountTrue(aux, a) <= Enforced(|aux|, k))
    && (forall a :: Holds(base, a) && CountTrue(aux, a) <= k ==> Holds(asserted, a))
  }

  lemma Tighten(base: seq<Formula>, asserted: seq<Formula>, added: seq<Formula>, aux: seq<Formula>, k: nat)
    requires |aux| < UNSIGNED_LIMIT
    requires SearchState(base, asserted, aux, k)
    requires Encodes(added, aux, Enforced(|aux|, k))
    ensures Tightened(base, asserted + added, aux, k)
  {
    EnforcedAtLeast(|aux|, k);
    forall a
      ensures Holds(asserted + added, a) <==> Holds(asserted, a) && Holds(added, a)
    {
      HoldsAppend(asserted, added, a);
    }
  }

  lemma Loosen(base: seq<Formula>, asserted: seq<Formula>, aux: seq<Formula>, k: nat, m: Assignment)
    requires Tightened(base, asserted, aux, k)
    requires Holds(asserted, m) && 1 <= CountTrue(aux, m) <= k
    ensures SearchState(base, asserted, aux, CountTrue(aux, m) - 1)
  {
  }

  // The first round allows all but one constraint to be ignored.
  lemma StartState(hard: seq<Formula>, soft: seq<Formula>, next: nat)
    requires AllBelow(hard, next) && AllBelow(soft, next)
    requires Satisfiable(hard) && soft != []
    ensures var aux := FreshVars(next, |soft|);
      var base := hard + SoftClauses(soft, aux);
      SearchState(base, base, aux, |soft| - 1)
  {
    var a := AllDisabledModel(hard, soft, next);
  }

  lemma UnsatMeansOptimum(hard: seq<Formula>, soft: seq<Formula>, next: nat, asserted: seq<Formula>, k: nat)
    requires AllBelow(hard, next) && AllBelow(soft, next)
    requires var aux := FreshVars(next, |soft|);
      var base := hard + SoftClauses(soft, aux);
      && Tightened(base, asserted, aux, k)
      && exists a :: Holds(base, a) && CountTrue(aux, a) == k + 1
    requires !Satisfiable(asserted)
    ensures IsOptimum(hard, soft, k + 1)
  {
    var aux := FreshVars(next, |soft|);
    var base := hard + SoftClauses(soft, aux);
    forall b | Holds(hard, b)
      ensures CountFalse(soft, b) >= k + 1
    {
      var b' := AnswerExtension(hard, soft, next, b);
      HoldsAppend(hard, SoftClauses(soft, aux), b');
    }
    var a :| Holds(base, a) && CountTrue(aux, a) == k + 1;
    HoldsAppend(hard, SoftClauses(soft, aux), a);
    ClausesHold(soft, aux, a);
    AnswersCoverFalsified(soft, aux, a);
  }

  lemma NoneDisabledIsOptimum(hard: seq<Formula>, soft: seq<Formula>, aux: seq<Formula>, m: Assignment)
    requires |soft| == |aux|
    requires Holds(hard + SoftClauses(soft, aux), m) && CountTrue(aux, m) == 0
    ensures IsOptimum(hard, soft, 0)
  {
    HoldsAppend(hard, SoftClauses(soft, aux), m);
    ClausesHold(soft, aux, m);
    AnswersCoverFalsified(soft, aux, m);
  }

  // Between two rounds: the state of the search, and the models that have led to it.
  ghost predicate InRound(base: seq<Formula>, asserted: seq<Formula>, aux: seq<Formula>, k: nat, ms: seq<Assignment>) {
    && SearchState(base, asserted, aux, k)
    && IsSearch(base, aux, ms) && Piled(base, asserted, aux, ms, |ms|) && k == BoundAt(aux, ms, |ms|)
  }

  lemma GoOn(base: seq<Formula>, asserted: seq<Formula>, aux: seq<Formula>, k: nat, ms: seq<Assignment>, m: Assignment)
    requires k < |aux| && Tightened(base, asserted, aux, k)
    requires IsSearch(base, aux, ms) && Piled(base, asserted, aux, ms, |ms| + 1) && k == BoundAt(aux, ms, |ms|)
    requires Holds(asserted, m) && 1 <= CountTrue(aux, m) <= k
    ensures InRound(base, asserted, aux, CountTrue(aux, m) - 1, ms + [m])
  {
    Loosen(base, asserted, aux, k, m);
    NextRound(base, asserted, aux, ms, m);
  }

  lemma FirstRound(hard: seq<Formula>, soft: seq<Formula>, next: nat, aux: seq<Formula>, base: seq<Formula>)
    requires AllBelow(hard, next) && AllBelow(soft, next)
    requires Satisfiable(hard) && soft != [] && aux == FreshVars(next, |soft|) && base == hard + SoftClauses(soft, aux)
    ensures InRound(base, base, aux, |soft| - 1, [])
  {
    StartState(hard, soft, next);
  }

  // Allows at most k answer literals from now on, and asks for a model.
  method TightenAndCheck(s: Solver, auxVars: array<Formula>, k: nat, ghost base: seq<Formula>,
                         ghost ms: seq<Assignment>)
    returns (isSat: Answer)
    requires auxVars.Length + 1 < UNSIGNED_LIMIT && InRound(base, s.asserted, auxVars[..], k, ms)
    modifies s
    ensures Tightened(base, s.asserted, auxVars[..], k) && Piled(base, s.asserted, auxVars[..], ms, |ms| + 1)
    ensures s.answers == old(s.answers) + [isSat]
    ensures isSat.Sat? ==> Holds(s.asserted, isSat.model)
    ensures isSat.Unsat? ==> !Satisfiable(s.asserted)
  {
    ghost var asserted := s.asserted;
    AssertAtMostK(s, auxVars.Length, auxVars, k);
    assert auxVars[..auxVars.Length] == auxVars[..];
    ghost var added := s.asserted[|asserted|..];
    assert s.asserted == asserted + added;
    Tighten(base, asserted, added, auxVars[..], k);
    PileUp(base, asserted, added, auxVars[..], ms);
    isSat := s.Check([]);
    assert isSat.Unsat? ==> forall a :: Holds(isSat.core, a);
  }

  function Sats(ms: seq<Assignment>): seq<Answer> {
    seq(|ms|, i requires 0 <= i < |ms| => Sat(ms[i]))
  }

  // How the last answer, after models that let the search go on, ends it: the error branch is taken if and only if that
  // answer is a model that disables more constraints than were allowed.
  ghost predicate EndsSo(base: seq<Formula>, aux: seq<Formula>, ms: seq<Assignment>, last: Answer, r: Outcome) {
    && aux != [] && |aux| < UNSIGNED_LIMIT && IsSearch(base, aux, ms)
    && match last
       case Sat(m) =>
         if CountTrue(aux, m) > BoundAt(aux, ms, |ms|) then r == Bug
         else CountTrue(aux, m) == 0 && r == Value(ToInt(|aux|))
       case Unsat(_) =>
         BoundAt(aux, ms, |ms|) < |aux| && r == Value(ToInt(|aux| - BoundAt(aux, ms, |ms|) - 1))
  }

  // The rounds gave these answers, in this order.
  ghost predicate Answered(before: seq<Answer>, ms: seq<Assignment>, last: Answer, after: seq<Answer>) {
    after == before + Sats(ms) + [last]
  }

  lemma AnsweredOn(before: seq<Answer>, ms: seq<Assignment>, m: Assignment)
    ensures before + Sats(ms) + [Sat(m)] == before + Sats(ms + [m])
  {
    assert Sats(ms + [m]) == Sats(ms) + [Sat(m)];
  }

  // The rounds, from all but one constraint ignored down to the optimum.
  method Rounds(s: Solver, auxVars: array<Formula>, ghost hard: seq<Formula>, ghost soft: seq<Formula>, ghost next: nat)
    returns (r: Outcome, ghost ms: seq<Assignment>, ghost last: Answer)
    requires AllBelow(hard, next) && AllBelow(soft, next) && Satisfiable(hard)
    requires soft != [] && auxVars.Length + 1 < UNSIGNED_LIMIT && auxVars[..] == FreshVars(next, |soft|)
    requires s.asserted == hard + SoftClauses(soft, auxVars[..])
    modifies s
    ensures r.Value? ==> r.n != -1 && IsMaxSat(hard, soft, r.n)
    ensures r.Bug? ==> ErrorPossible(hard, soft)
    ensures Answered(old(s.answers), ms, last, s.answers)
    ensures EndsSo(old(s.asserted), auxVars[..], ms, last, r)
  {
    ghost var aux, base := auxVars[..], s.asserted;
    FirstRound(hard, soft, next, aux, base);
    ms := [];
    assert s.answers + Sats(ms) == s.answers;
    var k := auxVars.Length - 1;
    while true
      invariant 0 <= k < auxVars.Length
      invariant InRound(base, s.asserted, aux, k, ms)
      invariant s.answers == old(s.answers) + Sats(ms)
      decreases k
    {
      ghost var allowed := k;
      var isSat := TightenAndCheck(s, auxVars, k, base, ms);
      last := isSat;
      if isSat.Unsat? {
        UnsatMeansOptimum(hard, soft, next, s.asserted, k);
        OptimumConverted(hard, soft, k + 1);
        return Value(ToInt(auxVars.Length - k - 1)), ms, last;
      }
      var m := isSat.model;
      var numDisabled := GetNumDisabledSoftConstraints(m, auxVars);
      if numDisabled > k {
        ErrorNeeds(hard, soft, aux, ms, m);
        return Bug, ms, last;
      }
      k := numDisabled;
      if k == 0 {
        NoneDisabledIsOptimum(hard, soft, aux, m);
        OptimumConverted(hard, soft, 0);
        return Value(ToInt(auxVars.Length)), ms, last;
      }
      GoOn(base, s.asserted, aux, allowed, ms, m);
      AnsweredOn(old(s.answers), ms, m);
      ms := ms + [m];
      k := k - 1;
    }
  }

  // The solver's answers, after the check of the hard constraints, are those of a search that ends with this result.
  ghost predicate SearchRun(hard: seq<Formula>, soft: seq<Formula>, next: nat, before: seq<Answer>, after: seq<Answer>,
                            r: Outcome) {
    var aux := FreshVars(next, |soft|);
    exists first, ms, last ::
      Answered(before + [first], ms, last, after) && EndsSo(hard + SoftClauses(soft, aux), aux, ms, last, r)
  }

  /**
   -1 stands for unsatisfiable hard constraints.  Any other number is the count of soft constraints that can be
   satisfied together, converted to int, so right if and only if that count is below 2^31.  The error branch is taken
   if and only if the last model disables more constraints than the ones before it allow, which happens only in the runs
   that SearchRuns.ErrorExact characterises.
   */
  method NaiveMaxSat(ctx: Context, s: Solver, hardCnstrs: array<Formula>, softCnstrs: array<Formula>)
    returns (r: Outcome)
    requires AllBelow(s.asserted + hardCnstrs[..], ctx.next) && AllBelow(softCnstrs[..], ctx.next)
    requires softCnstrs.Length + 1 < UNSIGNED_LIMIT
    modifies ctx, s
    ensures r == Value(-1) <==> !Satisfiable(old(s.asserted) + hardCnstrs[..])
    ensures r.Value? && r.n != -1 ==> IsMaxSat(old(s.asserted) + hardCnstrs[..], softCnstrs[..], r.n)
    ensures r.Bug? ==> softCnstrs.Length >= 1 && ErrorPossible(old(s.asserted) + hardCnstrs[..], softCnstrs[..])
    ensures softCnstrs.Length >= 1 && Satisfiable(old(s.asserted) + hardCnstrs[..]) ==>
      SearchRun(old(s.asserted) + hardCnstrs[..], softCnstrs[..], old(ctx.next), old(s.answers), s.answers, r)
  {
    ghost var hard, soft, next := s.asserted + hardCnstrs[..], softCnstrs[..], ctx.next;
    AssertHardConstraints(s, hardCnstrs);
    var isSat := s.Check([]);
    if isSat.Unsat? {
      assert forall a :: Holds(isSat.core, a);
      return Value(-1);
    }
    assert Satisfiable(hard);
    if softCnstrs.Length == 0 {
      ghost var c := OptimumExists(hard, soft);
      OptimumConverted(hard, soft, c);
      return Value(0);
    }
    var auxVars := AssertSoftConstraints(ctx, s, softCnstrs);
    ghost var ms, last;
    r, ms, last := Rounds(s, auxVars, hard, soft, next);
    assert Answered(old(s.answers) + [isSat], ms, last, s.answers);
  }
}
