/** Runs of the linear search, and which of them end in its error branch. */
module SearchRuns {
  import opened Formulas
  import opened Cardinality
  import opened MachineIntegers
  import opened MaxSat

  // The number of constraints round i allows to be ignored: all but one at first, later one less than the last model.
  function BoundAt(aux: seq<Formula>, ms: seq<Assignment>, i: nat): nat
    requires aux != [] && i <= |ms|
  {
    if i == 0 then |aux| - 1
    else
      var disabled := CountTrue(aux, ms[i - 1]);
      if disabled == 0 then 0 else disabled - 1
  }

  // The assignment meets what the first rounds have enforced.
  ghost predicate MeetsRounds(aux: seq<Formula>, ms: seq<Assignment>, n: nat, a: Assignment)
    requires aux != [] && n <= |ms| + 1
  {
    forall j: nat :: j < n ==> CountTrue(aux, a) <= Enforced(|aux|, BoundAt(aux, ms, j))
  }

  // The models of the rounds so far: each meets the constraints piled up by then and lets the search go on.
  ghost predicate IsSearch(base: seq<Formula>, aux: seq<Formula>, ms: seq<Assignment>)
    requires aux != []
  {
    forall i: nat :: i < |ms| ==> GoesOn(base, aux, ms, i)
  }

  ghost predicate GoesOn(base: seq<Formula>, aux: seq<Formula>, ms: seq<Assignment>, i: nat)
    requires aux != [] && i < |ms|
  {
    Holds(base, ms[i]) && MeetsRounds(aux, ms, i + 1, ms[i]) && 1 <= CountTrue(aux, ms[i]) <= BoundAt(aux, ms, i)
  }

  // A round answered by a model that disables more constraints than were allowed.
  ghost predicate EndsInError(base: seq<Formula>, aux: seq<Formula>, ms: seq<Assignment>, m: Assignment)
    requires aux != []
  {
    && IsSearch(base, aux, ms)
    && Holds(base, m) && MeetsRounds(aux, ms, |ms| + 1, m)
    && CountTrue(aux, m) > BoundAt(aux, ms, |ms|)
  }

  // The assertions are the relaxed problem with the constraints of the first n rounds on top.
  ghost predicate Piled(base: seq<Formula>, asserted: seq<Formula>, aux: seq<Formula>, ms: seq<Assignment>, n: nat)
    requires aux != [] && n <= |ms| + 1
  {
    forall a :: Holds(asserted, a) <==> Holds(base, a) && MeetsRounds(aux, ms, n, a)
  }

  lemma PileUp(base: seq<Formula>, asserted: seq<Formula>, added: seq<Formula>, aux: seq<Formula>, ms: seq<Assignment>)
    requires aux != [] && Piled(base, asserted, aux, ms, |ms|)
    requires Encodes(added, aux, Enforced(|aux|, BoundAt(aux, ms, |ms|)))
    ensures Piled(base, asserted + added, aux, ms, |ms| + 1)
  {
    forall a
      ensures Holds(asserted + added, a) <==> Holds(base, a) && MeetsRounds(aux, ms, |ms| + 1, a)
    {
      HoldsAppend(asserted, added, a);
      assert Holds(added, a) <==> CountTrue(aux, a) <= Enforced(|aux|, BoundAt(aux, ms, |ms|));
    }
  }

  // A further model changes nothing about the rounds before it.
  lemma EarlierRounds(aux: seq<Formula>, ms: seq<Assignment>, m: Assignment, n: nat, a: Assignment)
    requires aux != [] && n <= |ms| + 1
    ensures MeetsRounds(aux, ms + [m], n, a) <==> MeetsRounds(aux, ms, n, a)
  {
    forall j: nat | j < n
      ensures BoundAt(aux, ms + [m], j) == BoundAt(aux, ms, j)
    {
    }
  }

  lemma SearchSnoc(base: seq<Formula>, aux: seq<Formula>, ms: seq<Assignment>, m: Assignment)
    requires aux != [] && IsSearch(base, aux, ms)
    requires Holds(base, m) && MeetsRounds(aux, ms, |ms| + 1, m) && 1 <= CountTrue(aux, m) <= BoundAt(aux, ms, |ms|)
    ensures IsSearch(base, aux, ms + [m])
  {
    var all := ms + [m];
    forall i: nat | i < |all|
      ensures GoesOn(base, aux, all, i)
    {
      EarlierRounds(aux, ms, m, i + 1, all[i]);
      if i < |ms| {
        assert GoesOn(base, aux, ms, i);
      }
    }
  }

  lemma NextRound(base: seq<Formula>, asserted: seq<Formula>, aux: seq<Formula>, ms: seq<Assignment>, m: Assignment)
    requires aux != [] && IsSearch(base, aux, ms) && Piled(base, asserted, aux, ms, |ms| + 1)
    requires Holds(asserted, m) && 1 <= CountTrue(aux, m) <= BoundAt(aux, ms, |ms|)
    ensures IsSearch(base, aux, ms + [m]) && Piled(base, asserted, aux, ms + [m], |ms + [m]|)
    ensures BoundAt(aux, ms + [m], |ms + [m]|) == CountTrue(aux, m) - 1
  {
    SearchSnoc(base, aux, ms, m);
    forall a
      ensures Holds(asserted, a) <==> Holds(base, a) && MeetsRounds(aux, ms + [m], |ms + [m]|, a)
    {
      EarlierRounds(aux, ms, m, |ms| + 1, a);
    }
  }

  // Which runs end in error

  lemma EnforcedAtLeast(n: nat, k: nat)
    requires k < n < UNSIGNED_LIMIT
    ensures Enforced(n, k) >= k
  {
    if n >= 2 {
      EnforcedCircuit(n, k);
    }
  }

  // The answer literals outside `off` can be true together, when the soft constraints at `off` hold.
  lemma DisabledModel(hard: seq<Formula>, soft: seq<Formula>, next: nat, a: Assignment, off: set<nat>)
    returns (b: Assignment)
    requires AllBelow(hard, next) && AllBelow(soft, next) && Holds(hard, a)
    requires forall i: nat :: i < |soft| && i in off ==> Eval(soft[i], a)
    ensures Holds(hard + SoftClauses(soft, FreshVars(next, |soft|)), b)
    ensures forall i: nat :: i < |soft| ==> (Eval(FreshVars(next, |soft|)[i], b) <==> i !in off)
  {
    var aux := FreshVars(next, |soft|);
    b := Restrict(a, next) + set i: nat | i < |soft| && i !in off :: Const(next + i);
    assert SameBelow(next, a, b);
    HoldsBelow(hard, next, a, b);
    forall i: nat | i < |soft|
      ensures Eval(aux[i], b) <==> i !in off
      ensures Eval(soft[i], b) == Eval(soft[i], a)
    {
      assert Below(soft[i], next);
    }
    ClausesHold(soft, aux, b);
    HoldsAppend(hard, SoftClauses(soft, aux), b);
  }

  // All answer literals can be true at once, whatever the soft constraints.
  lemma AllDisabledModel(hard: seq<Formula>, soft: seq<Formula>, next: nat) returns (b: Assignment)
    requires AllBelow(hard, next) && AllBelow(soft, next) && exists a :: Holds(hard, a)
    ensures Holds(hard + SoftClauses(soft, FreshVars(next, |soft|)), b)
    ensures CountTrue(FreshVars(next, |soft|), b) == |soft|
  {
    var a :| Holds(hard, a);
    b := DisabledModel(hard, soft, next, a, {});
    CountTrueFull(FreshVars(next, |soft|), b);
  }

  lemma {:induction false} CountAllButOne(fs: seq<Formula>, a: Assignment, i: nat)
    requires i < |fs| && forall j: nat :: j < |fs| ==> (Eval(fs[j], a) <==> j != i)
    ensures CountTrue(fs, a) == |fs| - 1
  {
    var last := |fs| - 1;
    if i < last {
      CountAllButOne(fs[..last], a, i);
    } else {
      CountTrueFull(fs[..last], a);
    }
  }

  // A first round may disable everything, which is one too many.
  lemma {:induction false} ErrorAtOnce(hard: seq<Formula>, soft: seq<Formula>, next: nat)
    requires AllBelow(hard, next) && AllBelow(soft, next) && exists a :: Holds(hard, a)
    requires 1 <= |soft| < UNSIGNED_LIMIT && (|soft| == 1 || (|soft| > COUNTER_LIMIT && |soft| % 2 == 0))
    ensures var aux := FreshVars(next, |soft|);
      exists m :: EndsInError(hard + SoftClauses(soft, aux), aux, [], m)
  {
    var aux := FreshVars(next, |soft|);
    var b := AllDisabledModel(hard, soft, next);
    FirstRoundError(hard + SoftClauses(soft, aux), aux, b);
  }

  lemma {:induction false} FirstRoundError(base: seq<Formula>, aux: seq<Formula>, b: Assignment)
    requires 1 <= |aux| < UNSIGNED_LIMIT && (|aux| == 1 || (|aux| > COUNTER_LIMIT && |aux| % 2 == 0))
    requires Holds(base, b) && CountTrue(aux, b) == |aux|
    ensures EndsInError(base, aux, [], b)
  {
    EvenLetsThrough(|aux|);
    assert BoundAt(aux, [], 0) == |aux| - 1;
  }

  lemma {:induction false} EvenLetsThrough(n: nat)
    requires 1 <= n < UNSIGNED_LIMIT && (n == 1 || (n > COUNTER_LIMIT && n % 2 == 0))
    ensures Enforced(n, n - 1) >= n
  {
    if n >= 2 {
      EnforcedCircuit(n, n - 1);
    }
  }

  // Otherwise a first round disables all but one, after which the bound is odd and enforces nothing.
  lemma {:induction false} ErrorNextTime(hard: seq<Formula>, soft: seq<Formula>, next: nat, a: Assignment)
    requires AllBelow(hard, next) && AllBelow(soft, next) && Holds(hard, a) && CountFalse(soft, a) < |soft|
    requires COUNTER_LIMIT < |soft| < UNSIGNED_LIMIT && |soft| % 2 == 1
    ensures var aux := FreshVars(next, |soft|);
      exists ms, m :: EndsInError(hard + SoftClauses(soft, aux), aux, ms, m)
  {
    var aux, n := FreshVars(next, |soft|), |soft|;
    CountTrueNone(soft, a);
    var f :| f in soft && Eval(f, a);
    var i :| 0 <= i < n && soft[i] == f;
    var b := DisabledModel(hard, soft, next, a, {i});
    CountAllButOne(aux, b, i);
    SecondRoundError(hard + SoftClauses(soft, aux), aux, b);
  }

  lemma {:induction false} SecondRoundError(base: seq<Formula>, aux: seq<Formula>, b: Assignment)
    requires COUNTER_LIMIT < |aux| < UNSIGNED_LIMIT && |aux| % 2 == 1
    requires Holds(base, b) && CountTrue(aux, b) == |aux| - 1
    ensures EndsInError(base, aux, [b], b)
  {
    OddLetsThrough(|aux|);
    forall j: nat | j < 2
      ensures CountTrue(aux, b) <= Enforced(|aux|, BoundAt(aux, [b], j))
    {
      assert BoundAt(aux, [b], j) == |aux| - 1 - j;
    }
    assert GoesOn(base, aux, [b], 0);
  }

  lemma {:induction false} OddLetsThrough(n: nat)
    requires COUNTER_LIMIT < n < UNSIGNED_LIMIT && n % 2 == 1
    ensures Enforced(n, n - 1) >= n - 1 && Enforced(n, n - 2) >= n - 1
  {
    EnforcedCircuit(n, n - 1);
    EnforcedCircuit(n, n - 2);
  }

  // Some soft constraint can be satisfied at all.
  ghost predicate SomeSoftHolds(hard: seq<Formula>, soft: seq<Formula>) {
    exists a :: Holds(hard, a) && CountFalse(soft, a) < |soft|
  }

  ghost predicate ErrorPossible(hard: seq<Formula>, soft: seq<Formula>) {
    |soft| == 1 || (|soft| > COUNTER_LIMIT && (|soft| % 2 == 0 || SomeSoftHolds(hard, soft)))
  }

  // Only these bounds let a larger count through.
  lemma ExceedsOnly(n: nat, k: nat, count: nat)
    requires n + 1 < UNSIGNED_LIMIT && k < count <= n && count <= Enforced(n, k)
    ensures n == 1 || (n > COUNTER_LIMIT && k % 2 == 1)
  {
    EnforcedExact(n, k);
    assert Within(count, n) && Within(count, Enforced(n, k)) && !Within(count, k);
  }

  lemma NotAllDisabled(hard: seq<Formula>, soft: seq<Formula>, aux: seq<Formula>, m: Assignment)
    requires |soft| == |aux| && Holds(hard + SoftClauses(soft, aux), m) && CountTrue(aux, m) < |aux|
    ensures SomeSoftHolds(hard, soft)
  {
    HoldsAppend(hard, SoftClauses(soft, aux), m);
    ClausesHold(soft, aux, m);
    AnswersCoverFalsified(soft, aux, m);
  }

  lemma {:induction false} ErrorNeeds(hard: seq<Formula>, soft: seq<Formula>, aux: seq<Formula>,
                                      ms: seq<Assignment>, m: Assignment)
    requires 1 <= |soft| == |aux| && |aux| + 1 < UNSIGNED_LIMIT
    requires EndsInError(hard + SoftClauses(soft, aux), aux, ms, m)
    ensures ErrorPossible(hard, soft)
  {
    var n, k := |aux|, BoundAt(aux, ms, |ms|);
    ExceedsOnly(n, k, CountTrue(aux, m));
    if n > 1 && n % 2 == 1 {
      assert ms != [] && GoesOn(hard + SoftClauses(soft, aux), aux, ms, 0);
      NotAllDisabled(hard, soft, aux, ms[0]);
    }
  }

  /**
   Some run of the search ends in its error branch if and only if there is a single soft constraint, or more than 2^31
   of them and their number is even or some soft constraint can be satisfied.
   */
  lemma ErrorExact(hard: seq<Formula>, soft: seq<Formula>, next: nat)
    requires AllBelow(hard, next) && AllBelow(soft, next) && exists a :: Holds(hard, a)
    requires 1 <= |soft| && |soft| + 1 < UNSIGNED_LIMIT
    ensures var aux := FreshVars(next, |soft|);
      (exists ms, m :: EndsInError(hard + SoftClauses(soft, aux), aux, ms, m)) <==> ErrorPossible(hard, soft)
  {
    var aux := FreshVars(next, |soft|);
    var base := hard + SoftClauses(soft, aux);
    if ms, m :| EndsInError(base, aux, ms, m) {
      ErrorNeeds(hard, soft, aux, ms, m);
    }
    if ErrorPossible(hard, soft) {
      if |soft| == 1 || |soft| % 2 == 0 {
        ErrorAtOnce(hard, soft, next);
        var m :| EndsInError(base, aux, [], m);
      } else {
        var a :| Holds(hard, a) && CountFalse(soft, a) < |soft|;
        ErrorNextTime(hard, soft, next, a);
      }
    }
  }
}
