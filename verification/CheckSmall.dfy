/** Shrinking models of 32-bit expressions by bisection between push and pop. */
module CheckSmall {
  import opened AdderCircuits
  import Cardinality

  const WORD: nat := 0x1_0000_0000
  const HALF_WORD: nat := 0x8000_0000

  // The values of the expressions to minimise in one model.
  type Vector = seq<nat>

  // Asserts that expression `index` is at most `limit`.
  datatype Bound = Bound(index: nat, limit: nat)

  predicate Meets(v: Vector, b: Bound) {
    b.index < |v| && v[b.index] <= b.limit
  }

  ghost predicate MeetsAll(v: Vector, bounds: seq<Bound>) {
    forall b :: b in bounds ==> Meets(v, b)
  }

  predicate AtMost(v: Vector, upper: seq<nat>) {
    |v| == |upper| && forall i :: 0 <= i < |v| ==> v[i] <= upper[i]
  }

  predicate AtLeast(v: Vector, lower: seq<nat>) {
    |v| == |lower| && forall i :: 0 <= i < |v| ==> v[i] >= lower[i]
  }

  // The solver: the values its initial assertions allow, and the bounds asserted since, one list a scope.
  class BoundSolver {
    const base: set<Vector>
    var scopes: seq<seq<Bound>>

    constructor (base: set<Vector>)
      ensures this.base == base && scopes == []
    {
      this.base, scopes := base, [];
    }

    method Push()
      modifies this
      ensures scopes == old(scopes) + [[]]
    {
      scopes := scopes + [[]];
    }

    method Pop()
      requires scopes != []
      modifies this
      ensures scopes == old(scopes)[..|old(scopes)| - 1]
    {
      scopes := scopes[..|scopes| - 1];
    }

    method Assert(b: Bound)
      requires scopes != []
      modifies this
      ensures scopes == old(scopes)[|old(scopes)| - 1 := old(scopes)[|old(scopes)| - 1] + [b]]
    {
      var last := |scopes| - 1;
      scopes := scopes[last := scopes[last] + [b]];
    }

    // Some allowed values that meet every bound, or an answer that there are none.
    method Check() returns (sat: bool, v: Vector)
      ensures sat ==> v in base && forall k :: 0 <= k < |scopes| ==> MeetsAll(v, scopes[k])
      ensures !sat ==> forall w :: w in base ==> exists k :: 0 <= k < |scopes| && !MeetsAll(w, scopes[k])
    {
      if w: Vector :| w in base && forall k | 0 <= k < |scopes| :: forall b | b in scopes[k] :: Meets(w, b) {
        sat, v := true, w;
      } else {
        sat, v := false, [];
      }
    }
  }

  // Measure

  function Gap(upper: seq<nat>, lower: seq<nat>): nat
    requires |upper| == |lower|
  {
    if upper == [] then 0
    else
      var last := |upper| - 1;
      Gap(upper[..last], lower[..last]) + if lower[last] < upper[last] then upper[last] - lower[last] else 0
  }

  // Narrowing never widens the gap, and closes it strictly where an open interval gets narrower.
  lemma {:induction false} GapShrinks(upper: seq<nat>, lower: seq<nat>, upper': seq<nat>, lower': seq<nat>)
    requires |upper| == |lower| == |upper'| == |lower'|
    requires forall i :: 0 <= i < |upper| ==> upper'[i] <= upper[i] && lower[i] <= lower'[i]
    ensures Gap(upper', lower') <= Gap(upper, lower)
    ensures (exists i :: 0 <= i < |upper| && lower[i] < upper[i] && upper'[i] + lower[i] < upper[i] + lower'[i])
            ==> Gap(upper', lower') < Gap(upper, lower)
  {
    if upper != [] {
      var last := |upper| - 1;
      GapShrinks(upper[..last], lower[..last], upper'[..last], lower'[..last]);
      if i :| 0 <= i < |upper| && lower[i] < upper[i] && upper'[i] + lower[i] < upper[i] + lower'[i] {
        if i < last {
          assert lower[..last][i] < upper[..last][i];
          assert upper'[..last][i] + lower[..last][i] < upper[..last][i] + lower'[..last][i];
        }
      }
    }
  }

  // The number of bits of the width of all open intervals, which bisection lowers by one each time.
  function BitLength(d: nat): nat {
    if d == 0 then 0 else 1 + BitLength(d / 2)
  }

  function Width(upper: nat, lower: nat): nat {
    if lower < upper then upper - lower else 0
  }

  function Bits(upper: seq<nat>, lower: seq<nat>): nat
    requires |upper| == |lower|
  {
    if upper == [] then 0
    else
      var last := |upper| - 1;
      Bits(upper[..last], lower[..last]) + BitLength(Width(upper[last], lower[last]))
  }

  lemma {:induction false} BitLengthMonotone(a: nat, b: nat)
    requires a <= b
    ensures BitLength(a) <= BitLength(b)
  {
    if a > 0 {
      BitLengthMonotone(a / 2, b / 2);
    }
  }

  lemma {:induction false} BitLengthBound(d: nat, k: nat)
    requires d < Pow2(k)
    ensures BitLength(d) <= k
  {
    if d > 0 && k > 0 {
      BitLengthBound(d / 2, k - 1);
    }
  }

  lemma {:induction false} BitsNarrow(upper: seq<nat>, lower: seq<nat>, upper': seq<nat>)
    requires |upper| == |lower| == |upper'| && forall i :: 0 <= i < |upper| ==> upper'[i] <= upper[i]
    ensures Bits(upper', lower) <= Bits(upper, lower)
  {
    if upper != [] {
      var last := |upper| - 1;
      BitsNarrow(upper[..last], lower[..last], upper'[..last]);
      BitLengthMonotone(Width(upper'[last], lower[last]), Width(upper[last], lower[last]));
    }
  }

  lemma {:induction false} BitsRaise(upper: seq<nat>, lower: seq<nat>, i: nat, low: nat)
    requires i < |upper| == |lower| && BitLength(Width(upper[i], low)) < BitLength(Width(upper[i], lower[i]))
    ensures Bits(upper, lower[i := low]) < Bits(upper, lower)
  {
    var last := |upper| - 1;
    if i < last {
      BitsRaise(upper[..last], lower[..last], i, low);
      assert lower[i := low][..last] == lower[..last][i := low];
    } else {
      assert lower[i := low][..last] == lower[..last];
    }
  }

  // The midpoint as computed: the sum wraps at the word size.
  function Midpoint(lower: nat, upper: nat): nat {
    (upper + lower) % WORD / 2
  }

  /** The midpoint is below the upper end; it lies in the interval exactly when the sum of the ends does not wrap. */
  lemma MidpointInside(lower: nat, upper: nat)
    requires lower < upper < WORD
    ensures Midpoint(lower, upper) < upper
    ensures lower <= Midpoint(lower, upper) <==> upper + lower < WORD
  {
  }

  // Where the sum does not wrap, what a failed check leaves is at most half as wide.
  lemma {:induction false} BisectionHalves(lower: nat, upper: nat)
    requires lower < upper && upper + lower < WORD
    ensures BitLength(Width(upper, Midpoint(lower, upper) + 1)) < BitLength(Width(upper, lower))
  {
    var d := upper - lower;
    assert Midpoint(lower, upper) == lower + d / 2;
    BitLengthMonotone(Width(upper, Midpoint(lower, upper) + 1), d / 2);
  }

  // Between the bounds

  // No allowed values below all upper bounds undercut a lower bound.
  ghost predicate Enclosed(base: set<Vector>, upper: seq<nat>, lower: seq<nat>) {
    forall v :: v in base && AtMost(v, upper) ==> AtLeast(v, lower)
  }

  ghost predicate SmallBase(base: set<Vector>, n: nat, limit: nat) {
    forall v :: v in base ==> |v| == n && forall i :: 0 <= i < n ==> v[i] <= limit
  }

  ghost predicate IsPareto(base: set<Vector>, v: Vector) {
    v in base && forall w :: w in base && AtMost(w, v) ==> w == v
  }

  // Before the first model the bounds are untouched; afterwards the upper bounds are the values of a model.
  ghost predicate Searching(base: set<Vector>, upper: seq<nat>, lower: seq<nat>, lastIndex: int) {
    && |upper| == |lower|
    && Enclosed(base, upper, lower)
    && (lastIndex == -1 ==>
          forall i :: 0 <= i < |upper| ==> upper[i] == WORD - 1 && lower[i] == 0)
    && (lastIndex != -1 ==> upper in base)
  }

  lemma ClosedIsPareto(base: set<Vector>, upper: seq<nat>, lower: seq<nat>)
    requires |upper| == |lower| && Enclosed(base, upper, lower) && upper in base
    requires !IsOpen(upper, lower)
    ensures IsPareto(base, upper)
  {
    forall w | w in base && AtMost(w, upper)
      ensures w == upper
    {
      assert AtLeast(w, lower);
    }
  }

  lemma EnclosedLowerUpper(base: set<Vector>, upper: seq<nat>, upper': seq<nat>, lower: seq<nat>)
    requires Enclosed(base, upper, lower)
    requires |upper| == |upper'| && forall i :: 0 <= i < |upper| ==> upper'[i] <= upper[i]
    ensures Enclosed(base, upper', lower)
  {
    forall v | v in base && AtMost(v, upper')
      ensures AtLeast(v, lower)
    {
      assert AtMost(v, upper);
    }
  }

  // No allowed values are below both the upper bounds and the midpoint: the lower bound rises above it.
  lemma EnclosedRaiseLower(base: set<Vector>, upper: seq<nat>, lower: seq<nat>, i: nat, mid: nat)
    requires |upper| == |lower| && i < |lower| && Enclosed(base, upper, lower)
    requires forall v :: v in base && AtMost(v, upper) ==> v[i] > mid
    ensures Enclosed(base, upper, lower[i := mid + 1])
  {
    forall v | v in base && AtMost(v, upper)
      ensures AtLeast(v, lower[i := mid + 1])
    {
      assert AtLeast(v, lower);
    }
  }

  // Below the bounds asserted in a scope: everything below the upper bounds and, if one is pending, below the midpoint.
  ghost predicate ScopeAllows(base: set<Vector>, upper: seq<nat>, pending: bool, index: int, mid: nat,
                              bounds: seq<Bound>) {
    forall v :: v in base && AtMost(v, upper) && (pending ==> 0 <= index < |v| && v[index] <= mid) ==>
      MeetsAll(v, bounds)
  }

  method AssertUppers(solver: BoundSolver, upper: array<nat>, ghost pending: bool, ghost index: int, ghost mid: nat)
    requires solver.scopes != []
    requires ScopeAllows(solver.base, upper[..], pending, index, mid, solver.scopes[|solver.scopes| - 1])
    modifies solver
    ensures |solver.scopes| == |old(solver.scopes)|
    ensures solver.scopes[..|solver.scopes| - 1] == old(solver.scopes)[..|solver.scopes| - 1]
    ensures ScopeAllows(solver.base, upper[..], pending, index, mid, solver.scopes[|solver.scopes| - 1])
    ensures old(solver.scopes[|solver.scopes| - 1]) <= solver.scopes[|solver.scopes| - 1]
    ensures forall i :: 0 <= i < upper.Length ==> Bound(i, upper[i]) in solver.scopes[|solver.scopes| - 1]
  {
    var i := 0;
    ghost var last := |solver.scopes| - 1;
    while i < upper.Length
      invariant i <= upper.Length
      invariant |solver.scopes| == |old(solver.scopes)| && solver.scopes[..last] == old(solver.scopes)[..last]
      invariant ScopeAllows(solver.base, upper[..], pending, index, mid, solver.scopes[last])
      invariant old(solver.scopes[last]) <= solver.scopes[last]
      invariant forall j :: 0 <= j < i ==> Bound(j, upper[j]) in solver.scopes[last]
    {
      solver.Assert(Bound(i, upper[i]));
      i := i + 1;
    }
  }

  method NarrowTo(v: Vector, upper: array<nat>)
    requires |v| == upper.Length && AtMost(v, upper[..])
    modifies upper
    ensures upper[..] == v
  {
    var i := 0;
    while i < upper.Length
      invariant i <= upper.Length
      invariant forall j :: 0 <= j < i ==> upper[j] == v[j]
      invariant forall j :: i <= j < upper.Length ==> upper[j] == old(upper[j])
    {
      assert v[i] <= old(upper[..])[i];
      var ui := v[i];
      if ui < upper[i] {
        upper[i] := ui;
      }
      i := i + 1;
    }
  }

  // The first open interval from here on, or the number of intervals.
  function FirstOpen(upper: seq<nat>, lower: seq<nat>, from: nat): (i: nat)
    requires from <= |upper| == |lower|
    ensures from <= i <= |upper| && (i < |upper| ==> lower[i] < upper[i])
    ensures i == |upper| ==> forall j :: from <= j < |upper| ==> lower[j] >= upper[j]
    decreases |upper| - from
  {
    if from == |upper| || lower[from] < upper[from] then from else FirstOpen(upper, lower, from + 1)
  }

  // The first open interval, or none.
  method FindOpen(upper: array<nat>, lower: array<nat>) returns (found: bool, index: nat)
    requires upper.Length == lower.Length
    ensures found <==> FirstOpen(upper[..], lower[..], 0) < upper.Length
    ensures found ==> index == FirstOpen(upper[..], lower[..], 0)
    ensures !found ==> index == 0 && forall i :: 0 <= i < upper.Length ==> lower[i] >= upper[i]
  {
    found, index := false, 0;
    var i := 0;
    while i < upper.Length
      invariant i <= upper.Length
      invariant !found && index == 0 && forall j :: 0 <= j < i ==> lower[j] >= upper[j]
      invariant FirstOpen(upper[..], lower[..], 0) == FirstOpen(upper[..], lower[..], i)
    {
      if lower[i] < upper[i] {
        return true, i;
      }
      i := i + 1;
    }
  }

  // What holds before each check of a round.
  ghost predicate InScope(base: set<Vector>, upper: seq<nat>, lower: seq<nat>, pending: bool, index: int, mid: nat,
                          bounds: seq<Bound>) {
    && Searching(base, upper, lower, index)
    && ScopeAllows(base, upper, pending, index, mid, bounds)
    && (!pending ==> bounds == [])
    && (pending ==>
          && 0 <= index < |upper| && Bound(index, mid) in bounds
          && lower[index] < upper[index] && mid == Midpoint(lower[index], upper[index]) < upper[index])
  }

  // An unsatisfiable check without a pending midpoint means there are no values at all.
  lemma UnsatWithoutMidpoint(base: set<Vector>, n: nat, upper: seq<nat>, lower: seq<nat>, index: int,
                             bounds: seq<Bound>)
    requires SmallBase(base, n, WORD - 1) && |upper| == n
    requires Searching(base, upper, lower, index)
    requires ScopeAllows(base, upper, false, index, 0, bounds)
    requires forall w :: w in base ==> !MeetsAll(w, bounds)
    ensures base == {} && index == -1
  {
    assert AtMost(upper, upper);
    if v :| v in base {
      assert false;
    }
  }

  lemma UnsatWithMidpoint(base: set<Vector>, n: nat, upper: seq<nat>, lower: seq<nat>, index: nat, mid: nat,
                          bounds: seq<Bound>)
    requires SmallBase(base, n, WORD - 1) && |upper| == |lower| == n && index < n
    requires Enclosed(base, upper, lower)
    requires ScopeAllows(base, upper, true, index, mid, bounds)
    requires forall w :: w in base ==> !MeetsAll(w, bounds)
    ensures Enclosed(base, upper, lower[index := mid + 1])
  {
    EnclosedRaiseLower(base, upper, lower, index, mid);
  }

  // A model of a check becomes the upper bounds.
  lemma SatNarrows(base: set<Vector>, upper: seq<nat>, lower: seq<nat>, pending: bool, index: int, mid: nat,
                   bounds: seq<Bound>, v: Vector)
    requires |upper| == |lower| && Enclosed(base, upper, lower)
    requires v in base && |v| == |upper| && MeetsAll(v, bounds)
    requires forall i :: 0 <= i < |upper| ==> Bound(i, upper[i]) in bounds
    requires pending ==> 0 <= index < |upper| && Bound(index, mid) in bounds
    requires pending ==> lower[index] < upper[index] && mid < upper[index]
    ensures AtMost(v, upper) && Enclosed(base, v, lower)
    ensures Gap(v, lower) <= Gap(upper, lower)
    ensures pending ==> Gap(v, lower) < Gap(upper, lower)
  {
    forall i | 0 <= i < |upper|
      ensures v[i] <= upper[i]
    {
      assert Meets(v, Bound(i, upper[i]));
    }
    EnclosedLowerUpper(base, upper, v, lower);
    if pending {
      assert Meets(v, Bound(index, mid));
    }
    GapShrinks(upper, lower, v, lower);
  }

  // The gap closes after a failed check too, unless the midpoint has wrapped.
  lemma UnsatShrinks(upper: seq<nat>, lower: seq<nat>, index: nat, mid: nat)
    requires |upper| == |lower| && index < |lower| && lower[index] < upper[index] && lower[index] <= mid
    ensures Gap(upper, lower[index := mid + 1]) < Gap(upper, lower)
  {
    GapShrinks(upper, lower, upper, lower[index := mid + 1]);
  }

  // Once the upper bounds are a model, everything below them meets what was asserted before.
  lemma AllowNarrowed(base: set<Vector>, v: Vector, bounds: seq<Bound>, pending: bool, upper: seq<nat>, index: int,
                      mid: nat)
    requires ScopeAllows(base, upper, pending, index, mid, bounds)
    requires AtMost(v, upper) && (pending ==> 0 <= index < |v| && v[index] <= mid)
    ensures ScopeAllows(base, v, false, 0, 0, bounds)
  {
    forall w | w in base && AtMost(w, v)
      ensures MeetsAll(w, bounds)
    {
      assert AtMost(w, upper);
    }
  }

  lemma AllowMidpoint(base: set<Vector>, upper: seq<nat>, bounds: seq<Bound>, index: nat, mid: nat)
    requires ScopeAllows(base, upper, false, 0, 0, bounds)
    ensures ScopeAllows(base, upper, true, index, mid, bounds + [Bound(index, mid)])
  {
  }

  // Asserts the upper bounds and checks; a model narrows the upper bounds, a failure raises a lower one.
  method CheckOnce(solver: BoundSolver, upper: array<nat>, lower: array<nat>, lastIndex: int, lastUpper: nat,
                   ghost pending: bool)
    returns (sat: bool)
    requires upper != lower && upper.Length == lower.Length && |solver.scopes| == 1
    requires SmallBase(solver.base, upper.Length, WORD - 1)
    requires InScope(solver.base, upper[..], lower[..], pending, lastIndex, lastUpper, solver.scopes[0])
    modifies solver, upper, lower
    ensures |solver.scopes| == 1
    ensures Enclosed(solver.base, upper[..], lower[..]) && AtMost(upper[..], old(upper[..]))
    ensures sat ==> upper[..] in solver.base && lower[..] == old(lower[..])
    ensures sat ==> ScopeAllows(solver.base, upper[..], false, 0, 0, solver.scopes[0])
    ensures !sat ==> upper[..] == old(upper[..])
    ensures !sat && !pending ==> solver.base == {} && lastIndex == -1 && lower[..] == old(lower[..])
    ensures !sat && pending ==> solver.base != {} && lower[..] == old(lower[..])[lastIndex := lastUpper + 1]
    ensures sat ==> Gap(upper[..], lower[..]) <= Gap(old(upper[..]), old(lower[..]))
    ensures sat && pending ==> Gap(upper[..], lower[..]) < Gap(old(upper[..]), old(lower[..]))
  {
    ghost var base, n := solver.base, upper.Length;
    AssertUppers(solver, upper, pending, lastIndex, lastUpper);
    ghost var bounds, before := solver.scopes[0], upper[..];
    var v;
    sat, v := solver.Check();
    if sat {
      SatNarrows(base, before, lower[..], pending, lastIndex, lastUpper, bounds, v);
      assert pending ==> Meets(v, Bound(lastIndex, lastUpper));
      AllowNarrowed(base, v, bounds, pending, before, lastIndex, lastUpper);
      NarrowTo(v, upper);
    } else {
      assert forall w :: w in base ==> !MeetsAll(w, bounds);
      if !pending {
        UnsatWithoutMidpoint(base, n, before, lower[..], lastIndex, bounds);
      } else {
        UnsatWithMidpoint(base, n, before, lower[..], lastIndex, lastUpper, bounds);
      }
      ghost var kept: seq<nat> := lower[..];
      if lastIndex != -1 {
        lower[lastIndex] := lastUpper + 1;
        assert lower[..] == kept[lastIndex := lastUpper + 1];
      }
    }
  }

  // The lower bounds after a failed check of the midpoint of the first open interval.
  function NextLowers(upper: seq<nat>, lower: seq<nat>): (next: seq<nat>)
    requires |upper| == |lower|
    ensures |next| == |lower|
  {
    var i := FirstOpen(upper, lower, 0);
    if i == |upper| then lower else lower[i := Midpoint(lower[i], upper[i]) + 1]
  }

  ghost predicate IsOpen(upper: seq<nat>, lower: seq<nat>)
    requires |upper| == |lower|
  {
    FirstOpen(upper, lower, 0) < |upper|
  }

  // A round narrows the upper bounds to a model, and its failed check determines the lower ones.
  ghost predicate RoundLaw(base: set<Vector>, upper: seq<nat>, lower: seq<nat>, upper': seq<nat>, lower': seq<nat>,
                           someWork: bool)
    requires |upper| == |lower|
  {
    base != {} ==>
      && upper' in base && AtMost(upper', upper)
      && (someWork <==> IsOpen(upper', lower)) && lower' == NextLowers(upper', lower)
  }

  // Asserts the midpoint of the first open interval, if there is one.
  method AssertMidpoint(solver: BoundSolver, upper: array<nat>, lower: array<nat>)
    returns (someWork: bool, lastIndex: nat, lastUpper: nat)
    requires upper.Length == lower.Length && |solver.scopes| == 1
    requires SmallBase(solver.base, upper.Length, WORD - 1) && upper[..] in solver.base
    requires Enclosed(solver.base, upper[..], lower[..])
    requires ScopeAllows(solver.base, upper[..], false, 0, 0, solver.scopes[0])
    modifies solver
    ensures |solver.scopes| == 1
    ensures Searching(solver.base, upper[..], lower[..], lastIndex)
    ensures someWork <==> IsOpen(upper[..], lower[..])
    ensures someWork ==>
      && lastIndex == FirstOpen(upper[..], lower[..], 0)
      && InScope(solver.base, upper[..], lower[..], true, lastIndex, lastUpper, solver.scopes[0])
  {
    someWork, lastIndex, lastUpper := false, 0, 0;
    var found, i := FindOpen(upper, lower);
    if found {
      MidpointInside(lower[i], upper[i]);
      lastUpper := Midpoint(lower[i], upper[i]);
      lastIndex := i;
      AllowMidpoint(solver.base, upper[..], solver.scopes[0], lastIndex, lastUpper);
      solver.Assert(Bound(i, lastUpper));
      someWork := true;
    }
  }

  /**
   One scope: check, narrow the upper bounds to the model, assert a midpoint, and again, until a check fails or nothing
   is open.  Without any values to find it changes nothing; with small ones it makes progress.
   */
  method Round(solver: BoundSolver, upper: array<nat>, lower: array<nat>, lastIndex0: int, lastUpper0: nat)
    returns (someWork: bool, lastIndex: int, lastUpper: nat)
    requires upper != lower && upper.Length == lower.Length && solver.scopes == []
    requires SmallBase(solver.base, upper.Length, WORD - 1)
    requires Searching(solver.base, upper[..], lower[..], lastIndex0)
    modifies solver, upper, lower
    ensures solver.scopes == []
    ensures Searching(solver.base, upper[..], lower[..], lastIndex)
    ensures solver.base == {} ==> someWork
    ensures solver.base != {} ==> lastIndex != -1
    ensures solver.base != {} && SmallBase(solver.base, upper.Length, HALF_WORD) && someWork ==>
      Gap(upper[..], lower[..]) < Gap(old(upper[..]), old(lower[..]))
    ensures !someWork ==> !IsOpen(upper[..], lower[..])
    ensures RoundLaw(solver.base, old(upper[..]), old(lower[..]), upper[..], lower[..], someWork)
  {
    someWork, lastIndex, lastUpper := true, lastIndex0, lastUpper0;
    solver.Push();
    ghost var pending, base, n := false, solver.base, upper.Length;
    ghost var lower0 := lower[..];
    var checkIsSat := true;
    while checkIsSat && someWork
      invariant checkIsSat && |solver.scopes| == 1
      invariant someWork ==> InScope(base, upper[..], lower[..], pending, lastIndex, lastUpper, solver.scopes[0])
      invariant Searching(base, upper[..], lower[..], lastIndex)
      invariant lower[..] == lower0 && Gap(upper[..], lower[..]) <= Gap(old(upper[..]), lower0)
      invariant AtMost(upper[..], old(upper[..]))
      invariant pending && someWork ==> lastIndex == FirstOpen(upper[..], lower0, 0)
      invariant pending || !someWork ==> base != {} && lastIndex != -1 && upper[..] in base
      invariant !pending && someWork ==> lastIndex == lastIndex0
      invariant !someWork ==> !IsOpen(upper[..], lower0)
      decreases someWork, Gap(upper[..], lower[..]), !pending
    {
      checkIsSat := CheckOnce(solver, upper, lower, lastIndex, lastUpper, pending);
      if !checkIsSat {
        break;
      }
      someWork, lastIndex, lastUpper := AssertMidpoint(solver, upper, lower);
      pending := pending || someWork;
    }
    solver.Pop();
    RoundResult(base, n, old(upper[..]), lower0, upper[..], lower[..], someWork, pending, lastIndex, lastUpper);
  }

  // The two results of a round: everything is closed, or a check with a midpoint has failed.
  lemma {:induction false} RoundResult(base: set<Vector>, n: nat, upper0: seq<nat>, lower0: seq<nat>,
                                       upper: seq<nat>, lower: seq<nat>, someWork: bool, pending: bool, index: int,
                                       mid: nat)
    requires |upper0| == |lower0| == |upper| == |lower| == n && AtMost(upper, upper0)
    requires SmallBase(base, n, WORD - 1) && Gap(upper, lower0) <= Gap(upper0, lower0)
    requires base != {} ==> upper in base && (someWork ==> pending)
    requires base == {} ==> !pending && someWork
    requires !someWork ==> lower == lower0 && !IsOpen(upper, lower0)
    requires someWork && pending ==>
      && 0 <= index < n && index == FirstOpen(upper, lower0, 0)
      && mid == Midpoint(lower0[index], upper[index]) && lower == lower0[index := mid + 1]
    ensures base != {} && SmallBase(base, n, HALF_WORD) && someWork ==> Gap(upper, lower) < Gap(upper0, lower0)
    ensures RoundLaw(base, upper0, lower0, upper, lower, someWork)
  {
    if base != {} && SmallBase(base, n, HALF_WORD) && someWork {
      MidpointInside(lower0[index], upper[index]);
      UnsatShrinks(upper, lower0, index, mid);
    }
  }

  function Zeros(n: nat): seq<nat> {
    seq(n, _ => 0)
  }

  function Maxima(n: nat): seq<nat> {
    seq(n, _ => WORD - 1)
  }

  lemma {:induction false} InitialBits(v: Vector)
    requires forall i :: 0 <= i < |v| ==> v[i] < WORD
    ensures Bits(v, Zeros(|v|)) <= 32 * |v|
  {
    if v != [] {
      var last := |v| - 1;
      assert Zeros(|v|)[..last] == Zeros(last);
      InitialBits(v[..last]);
      Cardinality.WordSize();
      BitLengthBound(v[last], 32);
    }
  }

  lemma {:induction false} RaiseHalves(upper: seq<nat>, lower: seq<nat>, i: nat, low: nat)
    requires i < |upper| == |lower| && lower[i] < upper[i] && upper[i] + lower[i] < WORD
    requires low == Midpoint(lower[i], upper[i]) + 1
    ensures Bits(upper, lower[i := low]) < Bits(upper, lower)
  {
    BisectionHalves(lower[i], upper[i]);
    BitsRaise(upper, lower, i, low);
  }

  lemma {:induction false} NextLowersHalve(upper: seq<nat>, lower: seq<nat>)
    requires |upper| == |lower| && IsOpen(upper, lower) && forall i :: 0 <= i < |upper| ==> upper[i] <= HALF_WORD
    ensures Bits(upper, NextLowers(upper, lower)) < Bits(upper, lower)
  {
    var i := FirstOpen(upper, lower, 0);
    RaiseHalves(upper, lower, i, Midpoint(lower[i], upper[i]) + 1);
  }

  /** With values up to 2^31 every round that leaves work takes a bit off the widths. */
  lemma {:induction false} RoundHalves(base: set<Vector>, n: nat, upper: seq<nat>, lower: seq<nat>, upper': seq<nat>,
                                       lower': seq<nat>)
    requires |upper| == |lower| == n && base != {} && SmallBase(base, n, HALF_WORD)
    requires RoundLaw(base, upper, lower, upper', lower', true)
    ensures Bits(upper', lower') < Bits(upper, lower)
  {
    BitsNarrow(upper, lower, upper');
    NextLowersHalve(upper', lower);
  }

  // Runs whose first model is Pareto-minimal are determined by it

  // The lower bounds after k rounds.
  function LowersAfter(v: Vector, k: nat): (lower: seq<nat>)
    ensures |lower| == |v|
  {
    if k == 0 then Zeros(|v|) else NextLowers(v, LowersAfter(v, k - 1))
  }

  // The bounds meet within so many rounds.
  ghost predicate ClosesWithin(v: Vector, rounds: nat) {
    exists k: nat :: k < rounds && !IsOpen(v, LowersAfter(v, k))
  }

  lemma ClosesLater(v: Vector, rounds: nat)
    ensures ClosesWithin(v, rounds + 1) <==> ClosesWithin(v, rounds) || !IsOpen(v, LowersAfter(v, rounds))
  {
    if ClosesWithin(v, rounds + 1) {
      var k: nat :| k < rounds + 1 && !IsOpen(v, LowersAfter(v, k));
    }
  }

  // After a positive number of rounds: the first model, when it is Pareto-minimal, has stayed.
  ghost predicate KeepsFirst(base: set<Vector>, first: Vector, rounds: nat, upper: seq<nat>, lower: seq<nat>,
                             someWork: bool) {
    base != {} ==>
      && first in base
      && (IsPareto(base, first) ==>
            upper == first && lower == LowersAfter(first, rounds) && (someWork <==> !ClosesWithin(first, rounds)))
  }

  lemma FirstRound(base: set<Vector>, n: nat, upper: seq<nat>, lower: seq<nat>, upper': seq<nat>, lower': seq<nat>,
                   someWork: bool)
    requires |upper| == n && lower == Zeros(n) && RoundLaw(base, upper, lower, upper', lower', someWork)
    ensures KeepsFirst(base, upper', 1, upper', lower', someWork)
  {
    if base != {} {
      ClosesLater(upper', 0);
      assert LowersAfter(upper', 1) == NextLowers(upper', LowersAfter(upper', 0));
    }
  }

  lemma LaterRound(base: set<Vector>, first: Vector, rounds: nat, upper: seq<nat>, lower: seq<nat>,
                   upper': seq<nat>, lower': seq<nat>, someWork: bool)
    requires |upper| == |lower| && KeepsFirst(base, first, rounds, upper, lower, true)
    requires RoundLaw(base, upper, lower, upper', lower', someWork)
    ensures KeepsFirst(base, first, rounds + 1, upper', lower', someWork)
  {
    if base != {} && IsPareto(base, first) {
      ClosesLater(first, rounds);
      assert LowersAfter(first, rounds + 1) == NextLowers(first, LowersAfter(first, rounds));
    }
  }

  lemma ClosedStaysClosed(base: set<Vector>, first: Vector, rounds: nat, maxRounds: nat, upper: seq<nat>,
                          lower: seq<nat>, someWork: bool)
    requires KeepsFirst(base, first, rounds, upper, lower, someWork)
    requires rounds <= maxRounds && (someWork ==> rounds == maxRounds)
    ensures base != {} && IsPareto(base, first) ==> (someWork <==> !ClosesWithin(first, maxRounds))
  {
    if base != {} && IsPareto(base, first) && !someWork {
      var k: nat :| k < rounds && !IsOpen(first, LowersAfter(first, k));
      assert k < maxRounds;
    }
  }

  method NextRound(solver: BoundSolver, upper: array<nat>, lower: array<nat>, lastIndex0: int, lastUpper0: nat,
                   ghost rounds: nat, ghost first: Vector)
    returns (someWork: bool, lastIndex: int, lastUpper: nat, ghost first': Vector)
    requires upper != lower && upper.Length == lower.Length && solver.scopes == []
    requires SmallBase(solver.base, upper.Length, WORD - 1)
    requires AfterRounds(solver.base, upper.Length, rounds, upper[..], lower[..], lastIndex0, true, first)
    modifies solver, upper, lower
    ensures solver.scopes == []
    ensures AfterRounds(solver.base, upper.Length, rounds + 1, upper[..], lower[..], lastIndex, someWork, first')
  {
    someWork, lastIndex, lastUpper := Round(solver, upper, lower, lastIndex0, lastUpper0);
    first' := OneMoreRound(solver.base, upper.Length, rounds, old(upper[..]), old(lower[..]), lastIndex0, first,
                           upper[..], lower[..], lastIndex, someWork);
  }

  /**
   The whole search, cut off after a number of rounds.  When it ends, its result is the values of a model that no other
   model undercuts in every component.  It never ends without a model.  When the values do not exceed 2^31 it ends
   within 32 rounds for each value and one more.
   When the model of the first round is Pareto-minimal, it ends exactly when the bounds of that model meet.
   */
  method CheckSmallModel(solver: BoundSolver, n: nat, maxRounds: nat)
    returns (upper: array<nat>, done: bool, ghost first: Vector)
    requires solver.scopes == [] && SmallBase(solver.base, n, WORD - 1)
    modifies solver
    ensures solver.scopes == []
    ensures done ==> IsPareto(solver.base, upper[..])
    ensures solver.base == {} ==> !done
    ensures solver.base != {} && SmallBase(solver.base, n, HALF_WORD) && maxRounds > 32 * n ==> done
    ensures solver.base != {} && maxRounds > 0 ==> first in solver.base
    ensures solver.base != {} && maxRounds > 0 && IsPareto(solver.base, first) ==>
      (done <==> ClosesWithin(first, maxRounds))
  {
    upper := new nat[n](_ => WORD - 1);
    var lower := new nat[n](_ => 0);
    SearchStart(solver.base, n, upper[..], lower[..]);
    done, first := Rounds(solver, upper, lower, maxRounds);
  }

  // The loop over the rounds.
  method Rounds(solver: BoundSolver, upper: array<nat>, lower: array<nat>, maxRounds: nat)
    returns (done: bool, ghost first: Vector)
    requires upper != lower && upper.Length == lower.Length && solver.scopes == []
    requires SmallBase(solver.base, upper.Length, WORD - 1)
    requires AfterRounds(solver.base, upper.Length, 0, upper[..], lower[..], -1, true, [])
    modifies solver, upper, lower
    ensures solver.scopes == [] && SearchResult(solver.base, upper.Length, maxRounds, upper[..], !done, first)
  {
    var someWork, lastIndex, lastUpper := true, -1, 0;
    var rounds := 0;
    first := [];
    while someWork && rounds < maxRounds
      invariant solver.scopes == [] && rounds <= maxRounds
      invariant AfterRounds(solver.base, upper.Length, rounds, upper[..], lower[..], lastIndex, someWork, first)
      decreases maxRounds - rounds
    {
      someWork, lastIndex, lastUpper, first := NextRound(solver, upper, lower, lastIndex, lastUpper, rounds, first);
      rounds := rounds + 1;
    }
    done := !someWork;
    SearchEnd(solver.base, upper.Length, rounds, maxRounds, upper[..], lower[..], lastIndex, someWork, first);
  }

  // What the rounds have come to.
  ghost predicate SearchResult(base: set<Vector>, n: nat, maxRounds: nat, upper: seq<nat>, someWork: bool,
                               first: Vector) {
    && (!someWork ==> base != {} && IsPareto(base, upper))
    && (base != {} && SmallBase(base, n, HALF_WORD) && maxRounds > 32 * n ==> !someWork)
    && (base != {} && maxRounds > 0 ==> first in base)
    && (base != {} && maxRounds > 0 && IsPareto(base, first) ==> (someWork <==> !ClosesWithin(first, maxRounds)))
  }

  lemma SearchStart(base: set<Vector>, n: nat, upper: seq<nat>, lower: seq<nat>)
    requires |upper| == |lower| == n && forall i :: 0 <= i < n ==> upper[i] == WORD - 1 && lower[i] == 0
    ensures AfterRounds(base, n, 0, upper, lower, -1, true, [])
  {
    assert upper == Maxima(n) && lower == Zeros(n);
    InitialBits(upper);
  }

  lemma SearchEnd(base: set<Vector>, n: nat, rounds: nat, maxRounds: nat, upper: seq<nat>, lower: seq<nat>,
                  lastIndex: int, someWork: bool, first: Vector)
    requires AfterRounds(base, n, rounds, upper, lower, lastIndex, someWork, first)
    requires rounds <= maxRounds && (someWork ==> rounds == maxRounds)
    ensures SearchResult(base, n, maxRounds, upper, someWork, first)
  {
    if !someWork {
      ClosedIsPareto(base, upper, lower);
    }
    if rounds > 0 {
      ClosedStaysClosed(base, first, rounds, maxRounds, upper, lower, someWork);
    }
  }

  // The state of the search between rounds: with nothing to find it goes on; otherwise it makes progress.
  ghost predicate AfterRounds(base: set<Vector>, n: nat, rounds: nat, upper: seq<nat>, lower: seq<nat>, lastIndex: int,
                              someWork: bool, first: Vector)
  {
    || (base == {} && Bounded(base, n, upper, lower, lastIndex, rounds) && someWork)
    || (base != {} && Bounded(base, n, upper, lower, lastIndex, rounds)
        && Progress(base, n, rounds, upper, lower, lastIndex, someWork, first))
  }

  ghost predicate Bounded(base: set<Vector>, n: nat, upper: seq<nat>, lower: seq<nat>, lastIndex: int, rounds: nat) {
    |upper| == |lower| == n && Searching(base, upper, lower, lastIndex) && (rounds == 0 ==> lower == Zeros(n))
  }

  ghost predicate Progress(base: set<Vector>, n: nat, rounds: nat, upper: seq<nat>, lower: seq<nat>, lastIndex: int,
                           someWork: bool, first: Vector)
    requires |upper| == |lower|
  {
    && (!someWork ==> lastIndex != -1 && !IsOpen(upper, lower))
    && (SmallBase(base, n, HALF_WORD) && someWork ==> Bits(upper, lower) + rounds <= 32 * n)
    && (if rounds == 0 then someWork else KeepsFirst(base, first, rounds, upper, lower, someWork))
  }

  lemma OneMoreRound(base: set<Vector>, n: nat, rounds: nat, upper: seq<nat>, lower: seq<nat>, lastIndex: int,
                     first: Vector, upper': seq<nat>, lower': seq<nat>, lastIndex': int, someWork: bool)
    returns (first': Vector)
    requires AfterRounds(base, n, rounds, upper, lower, lastIndex, true, first)
    requires |upper'| == |lower'| == n && Searching(base, upper', lower', lastIndex')
    requires (base == {} ==> someWork) && (base != {} ==> lastIndex' != -1) && (!someWork ==> !IsOpen(upper', lower'))
    requires RoundLaw(base, upper, lower, upper', lower', someWork)
    ensures AfterRounds(base, n, rounds + 1, upper', lower', lastIndex', someWork, first')
  {
    if base != {} && SmallBase(base, n, HALF_WORD) && someWork {
      RoundHalves(base, n, upper, lower, upper', lower');
    }
    if rounds == 0 {
      first' := upper';
      FirstRound(base, n, upper, lower, upper', lower', someWork);
    } else {
      first' := first;
      LaterRound(base, first, rounds, upper, lower, upper', lower', someWork);
    }
  }

  // When the bounds of a model meet

  // Above 2^31 the midpoint wraps before the lower bound can reach the value.
  lemma WrappedBelow(lower: nat, v: nat)
    requires lower < v && HALF_WORD < v < WORD
    ensures Midpoint(lower, v) + 1 < v
  {
  }

  lemma {:induction false} StaysBelow(v: Vector, i: nat, k: nat)
    requires i < |v| && HALF_WORD < v[i] < WORD
    ensures LowersAfter(v, k)[i] < v[i]
  {
    if k > 0 {
      StaysBelow(v, i, k - 1);
      WrappedBelow(LowersAfter(v, k - 1)[i], v[i]);
    }
  }

  lemma {:induction false} GetsCloser(v: Vector, k: nat)
    requires forall i :: 0 <= i < |v| ==> v[i] <= HALF_WORD
    ensures ClosesWithin(v, k) || Bits(v, LowersAfter(v, k)) + k <= Bits(v, Zeros(|v|))
  {
    if k > 0 {
      GetsCloser(v, k - 1);
      ClosesLater(v, k - 1);
      if IsOpen(v, LowersAfter(v, k - 1)) {
        NextLowersHalve(v, LowersAfter(v, k - 1));
      }
    }
  }

  /**
   The bound 2^31 is exact: the bounds of a model ever meet if and only if none of its values exceeds it, and then
   within 32 rounds for each value and one more.  Above, the wrapped midpoint keeps a lower bound below the value.
   */
  lemma BoundsMeetExactly(v: Vector)
    requires forall i :: 0 <= i < |v| ==> v[i] < WORD
    ensures (exists rounds: nat :: ClosesWithin(v, rounds)) <==> forall i :: 0 <= i < |v| ==> v[i] <= HALF_WORD
    ensures (forall i :: 0 <= i < |v| ==> v[i] <= HALF_WORD) ==> ClosesWithin(v, 32 * |v| + 1)
  {
    if i :| 0 <= i < |v| && v[i] > HALF_WORD {
      forall k: nat
        ensures IsOpen(v, LowersAfter(v, k))
      {
        StaysBelow(v, i, k);
      }
    } else {
      InitialBits(v);
      GetsCloser(v, 32 * |v| + 1);
    }
  }
}
