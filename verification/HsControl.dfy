/** Which rewriting a step of hitting-set MaxSAT does, and when it finds nothing to rewrite and stops with an error. */
module HsControl {
  import opened Formulas
  import opened Lists
  import opened Oracle
  import opened MaxResolution
  import opened HsBounds

  // What the choice depends on.
  datatype Control = Control(
    cores: seq<set<Formula>>, corrections: seq<set<Formula>>, smallSetSize: int, failures: nat, corrSetEnabled: bool)

  // What the check of a step adds to the cores and the correction sets.
  datatype Found = Found(cores: seq<set<Formula>>, corrections: seq<set<Formula>>)

  const NOTHING := Found([], [])
  const INITIAL := Control([], [], 6, 0, true)

  predicate HasSmall(sets: seq<set<Formula>>, size: int) {
    exists c | c in sets :: |c| <= size
  }

  function Collect(c: Control, found: Found): Control {
    c.(cores := c.cores + found.cores, corrections := c.corrections + found.corrections)
  }

  predicate Relaxes(c: Control) {
    HasSmall(c.cores, c.smallSetSize)
    || (!c.corrSetEnabled && !HasSmall(c.corrections, c.smallSetSize) && c.failures > 0)
  }

  // It is to relax the smallest cores, and there are none.
  predicate IsStuck(c: Control) {
    Relaxes(c) && c.cores == []
  }

  // What that leaves behind.
  predicate NothingToRelax(c: Control) {
    c.cores == [] && !c.corrSetEnabled && !HasSmall(c.corrections, c.smallSetSize)
  }

  // What is left when no core is relaxed: the correction sets have been used up, or a failure is counted.
  function WithoutRelaxing(c: Control): Control {
    if c.corrSetEnabled && HasSmall(c.corrections, c.smallSetSize) then Control([], [], c.smallSetSize, 0, false)
    else if c.failures + 1 > 3 then c.(failures := 0, smallSetSize := c.smallSetSize + 100)
    else c.(failures := c.failures + 1)
  }

  ghost predicate Rewrites(c: Control, c': Control) {
    if Relaxes(c) then c' == Control([], [], c'.smallSetSize, 0, true) && c'.smallSetSize >= 4
    else c' == WithoutRelaxing(c)
  }

  // Steps whose check is decided do not get stuck from here; `closed` when the bounds have met.
  ghost predicate Steady(c: Control, closed: bool) {
    closed || (c.smallSetSize >= 4 && (!c.corrSetEnabled && c.cores == [] ==> c.failures == 0 || {} in c.corrections))
  }

  // Without cores a decided check finds one, satisfies everything, or closes the bounds.
  ghost predicate Decides(c: Control, found: Found, closed: bool) {
    c.cores == [] ==> found.cores != [] || {} in found.corrections || closed
  }

  function Difference(c: Control, c': Control): Found
    requires |c.cores| <= |c'.cores| && |c.corrections| <= |c'.corrections|
  {
    Found(c'.cores[|c.cores|..], c'.corrections[|c.corrections|..])
  }

  lemma FoundByCheck(c: Control, c': Control, closed: bool, unknown: bool)
    requires c.cores <= c'.cores && c.corrections <= c'.corrections
    requires c' == c.(cores := c'.cores, corrections := c'.corrections)
    requires c.cores == [] ==> c'.cores != [] || c'.corrections == c.corrections + [{}] || closed || unknown
    ensures c' == Collect(c, Difference(c, c')) && (!unknown ==> Decides(c, Difference(c, c'), closed))
  {
    assert c'.cores == c.cores + Difference(c, c').cores;
    assert c'.corrections == c.corrections + Difference(c, c').corrections;
    if c'.corrections == c.corrections + [{}] {
      assert Difference(c, c').corrections == [{}];
    }
  }

  lemma EmptyIsSmall(sets: seq<set<Formula>>, size: int)
    requires {} in sets && size >= 0
    ensures HasSmall(sets, size)
  {
    var none: set<Formula> := {};
    assert none in sets && |none| <= size;
  }

  /** A step with a decided check is never stuck, and the next one will not be either. */
  lemma DecidedStepGoesOn(c: Control, found: Found, closed: bool, c': Control)
    requires Steady(c, false) && Decides(c, found, closed)
    ensures !IsStuck(Collect(c, found))
    ensures Rewrites(Collect(c, found), c') ==> Steady(c', closed)
  {
    var c1 := Collect(c, found);
    if {} in c1.corrections {
      EmptyIsSmall(c1.corrections, c1.smallSetSize);
    }
  }

  // A run of steps that rewrite without relaxing, the last of which is stuck.
  ghost predicate GetsStuck(c: Control, run: seq<Found>)
    decreases |run|
  {
    && run != []
    && var c1 := Collect(c, run[0]);
       if |run| == 1 then IsStuck(c1) else !Relaxes(c1) && GetsStuck(WithoutRelaxing(c1), run[1..])
  }

  // Not all of the constraints can hold together, and that is all.

  ghost predicate AreVariables(xs: seq<Formula>) {
    Distinct(xs) && forall i :: 0 <= i < |xs| ==> xs[i].Var?
  }

  function NotAll(xs: seq<Formula>): seq<Formula> {
    [Not(AndAll(xs))]
  }

  // All but one of the variables are true.
  function AllBut(xs: seq<Formula>, x: Formula): Assignment
    requires forall i :: 0 <= i < |xs| ==> xs[i].Var?
  {
    set i | 0 <= i < |xs| && xs[i] != x :: xs[i].symbol
  }

  lemma AllButOne(xs: seq<Formula>, x: Formula)
    requires AreVariables(xs) && x in xs
    ensures Holds(NotAll(xs), AllBut(xs, x)) && Falsified(ToSet(xs), AllBut(xs, x)) == {x}
  {
    var a := AllBut(xs, x);
    forall f | f in xs
      ensures Eval(f, a) <==> f != x
    {
      var i :| 0 <= i < |xs| && xs[i] == f;
      if f.symbol in a {
        var j :| 0 <= j < |xs| && xs[j] != x && xs[j].symbol == f.symbol;
        assert xs[j] == f;
      }
    }
    EvalAndAll(xs, a);
  }

  lemma OnlyCore(xs: seq<Formula>, core: set<Formula>)
    requires AreVariables(xs) && core <= ToSet(xs) && Refutes(NotAll(xs), core)
    ensures core == ToSet(xs)
  {
    if x :| x in ToSet(xs) && x !in core {
      AllButOne(xs, x);
      assert HoldsAll(core, AllBut(xs, x));
    }
  }

  lemma LeastCostOne(xs: seq<Formula>, first: nat)
    requires AreVariables(xs) && xs != []
    ensures IsMinCost(Problem(NotAll(xs), ToSet(xs), first), 1)
  {
    AllButOne(xs, xs[0]);
    forall a | Holds(NotAll(xs), a)
      ensures Cost(ToSet(xs), a) >= 1
    {
      EvalAndAll(xs, a);
      assert Not(AndAll(xs)) in NotAll(xs);
      var f :| f in xs && !Eval(f, a);
      assert f in Falsified(ToSet(xs), a);
    }
  }

  /**
   The error is reached: when more than six constraints cannot all hold together, every core is too large to be
   relaxed, so a first step that has met a small correction set restricts to it; two undecided checks later the
   program is stuck, although the least cost is one.
   */
  lemma StuckIsReached(xs: seq<Formula>, cores: seq<set<Formula>>, corrections: seq<set<Formula>>, x: Formula)
    requires AreVariables(xs) && |xs| > 6 && x in xs
    requires cores != [] && CoresOf(NotAll(xs), ToSet(xs), cores)
    requires Falsified(ToSet(xs), AllBut(xs, x)) in corrections
    ensures IsMinCost(Problem(NotAll(xs), ToSet(xs), 0), 1)
    ensures GetsStuck(INITIAL, [Found(cores, corrections), NOTHING, NOTHING])
  {
    LeastCostOne(xs, 0);
    AllButOne(xs, x);
    var one: set<Formula> := {x};
    assert one in corrections && |one| <= 6;
    forall core | core in cores
      ensures |core| > 6
    {
      OnlyCore(xs, core);
      DistinctSize(xs);
    }
    StuckAfterRestricting(cores, corrections);
  }

  lemma StuckAfterRestricting(cores: seq<set<Formula>>, corrections: seq<set<Formula>>)
    requires !HasSmall(cores, 6) && HasSmall(corrections, 6)
    ensures GetsStuck(INITIAL, [Found(cores, corrections), NOTHING, NOTHING])
  {
    var run := [Found(cores, corrections), NOTHING, NOTHING];
    var c1 := Collect(INITIAL, run[0]);
    assert c1.cores == cores && c1.corrections == corrections;
    var c2 := WithoutRelaxing(c1);
    assert Collect(c2, NOTHING) == c2;
    var c3 := WithoutRelaxing(c2);
    assert Collect(c3, NOTHING) == c3 && IsStuck(c3);
    assert run[1..] == [NOTHING, NOTHING] && run[1..][1..] == [NOTHING];
    assert GetsStuck(c3, [NOTHING]);
    assert GetsStuck(c2, [NOTHING, NOTHING]);
  }
}
