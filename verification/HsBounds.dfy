/** What hitting-set MaxSAT keeps true of its bounds while it rewrites the soft constraints. */
module HsBounds {
  import opened Formulas
  import opened Lists
  import opened Oracle
  import opened MaxResolution

  // The problem as posed: the initial assertions, the soft constraints and the first fresh name.
  datatype Problem = Problem(hard: seq<Formula>, soft: set<Formula>, first: nat)

  // The rewritten problem: the current assertions and soft constraints, the cost already accounted for,
  // the bounds on the remaining cost and on the whole cost, and the next fresh name.
  datatype SoftState = SoftState(asserted: seq<Formula>, soft: set<Formula>, offset: nat, lo: int, hi: nat, next: nat)

  // Rewriting moves cost into the offset but never changes the total.
  ghost predicate CostKept(p: Problem, st: SoftState) {
    forall a :: Holds(st.asserted, a) ==> Holds(p.hard, a) && Cost(p.soft, a) == Cost(st.soft, a) + st.offset
  }

  // Up to the values of names introduced later, `a` is a model of the assertions.
  ghost predicate Survives(first: nat, asserted: seq<Formula>, a: Assignment) {
    exists b :: SameBelow(first, a, b) && Holds(asserted, b)
  }

  // Whatever is cheaper than the upper bound is still a model.
  ghost predicate CheaperKept(p: Problem, st: SoftState) {
    forall a {:trigger Survives(p.first, st.asserted, a)} ::
      Holds(p.hard, a) && Cost(p.soft, a) < st.hi ==> Survives(p.first, st.asserted, a)
  }

  ghost predicate LowerBound(st: SoftState) {
    forall a :: Holds(st.asserted, a) ==> Cost(st.soft, a) >= st.lo
  }

  ghost predicate Sound(p: Problem, st: SoftState) {
    match st
    case SoftState(asserted, soft, _, _, _, next) =>
      && p.first <= next && SetBelow(p.soft, p.first)
      && AllBelow(asserted, next) && SetBelow(soft, next)
      && CostKept(p, st) && CheaperKept(p, st) && LowerBound(st)
  }

  ghost predicate IsMinCost(p: Problem, cost: nat) {
    && (exists a :: Holds(p.hard, a) && Cost(p.soft, a) == cost)
    && (forall a :: Holds(p.hard, a) ==> Cost(p.soft, a) >= cost)
  }

  lemma CostAtMost(fs: set<Formula>, a: Assignment)
    ensures Cost(fs, a) <= |fs|
  {
    assert |fs| == |Falsified(fs, a)| + |fs - Falsified(fs, a)| by {
      assert fs == Falsified(fs, a) + (fs - Falsified(fs, a));
    }
  }

  lemma SoundStart(p: Problem, hi: nat, lo: int)
    requires AllBelow(p.hard, p.first) && SetBelow(p.soft, p.first)
    requires lo <= 0
    ensures Sound(p, SoftState(p.hard, p.soft, 0, lo, hi, p.first))
  {
    forall a | Holds(p.hard, a)
      ensures Survives(p.first, p.hard, a)
    {
      assert SameBelow(p.first, a, a);
    }
  }

  lemma SoundSmallerHi(p: Problem, st: SoftState, hi: nat)
    requires Sound(p, st) && hi <= st.hi
    ensures Sound(p, st.(hi := hi))
  {
  }

  lemma SoundNewLo(p: Problem, st: SoftState, lo: int)
    requires Sound(p, st) && LowerBound(st.(lo := lo))
    ensures Sound(p, st.(lo := lo))
  {
  }

  /**
   At the exit of the main loop the upper bound is the optimum, whether it was reached by a model or never
   lowered from its initial value.
   */
  lemma OptimalAtExit(p: Problem, st: SoftState)
    requires Sound(p, st)
    requires st.lo + st.offset >= st.hi
    requires exists a :: Holds(p.hard, a)
    requires |p.soft| <= st.hi || exists a :: Holds(p.hard, a) && Cost(p.soft, a) == st.hi
    ensures IsMinCost(p, st.hi)
  {
    forall a | Holds(p.hard, a)
      ensures Cost(p.soft, a) >= st.hi
    {
      if Survives(p.first, st.asserted, a) {
        var b :| SameBelow(p.first, a, b) && Holds(st.asserted, b);
        CostBelow(p.soft, p.first, a, b);
      }
    }
    var a :| Holds(p.hard, a);
    CostAtMost(p.soft, a);
  }

  // Cores

  // Over the current assertions, no model satisfies all of a core.
  ghost predicate CoresOf(asserted: seq<Formula>, soft: set<Formula>, coreSets: seq<set<Formula>>) {
    forall K :: K in coreSets ==> K != {} && K <= soft && Refutes(asserted, K)
  }

  lemma RefutesMore(asserted: seq<Formula>, more: seq<Formula>, K: set<Formula>)
    requires Refutes(asserted, K)
    ensures Refutes(asserted + more, K)
  {
    forall a | Holds(asserted + more, a)
      ensures !HoldsAll(K, a)
    {
      HoldsAppend(asserted, more, a);
    }
  }

  ghost predicate Hits(hit: set<Formula>, coreSets: seq<set<Formula>>) {
    forall K :: K in coreSets ==> exists f :: f in K && f in hit
  }

  // The soft constraints a model falsifies hit every core.
  lemma FalsifiedHits(asserted: seq<Formula>, soft: set<Formula>, coreSets: seq<set<Formula>>, a: Assignment)
    requires CoresOf(asserted, soft, coreSets) && Holds(asserted, a)
    ensures Falsified(soft, a) <= soft && Hits(Falsified(soft, a), coreSets)
  {
    forall K | K in coreSets
      ensures exists f :: f in K && f in Falsified(soft, a)
    {
      assert !HoldsAll(K, a);
      var f :| f in K && !Eval(f, a);
      assert f in Falsified(soft, a);
    }
  }

  // `lower` bounds the size of every hitting set.
  ghost predicate HittingBound(soft: set<Formula>, coreSets: seq<set<Formula>>, lower: nat) {
    forall hit :: hit <= soft && Hits(hit, coreSets) ==> |hit| >= lower
  }

  /** A lower bound on hitting sets of the cores is a lower bound on the cost. */
  lemma HittingSetLowerBound(st: SoftState, coreSets: seq<set<Formula>>, lower: nat)
    requires CoresOf(st.asserted, st.soft, coreSets)
    requires HittingBound(st.soft, coreSets, lower)
    ensures LowerBound(st.(lo := lower))
  {
    forall a | Holds(st.asserted, a)
      ensures Cost(st.soft, a) >= lower
    {
      FalsifiedHits(st.asserted, st.soft, coreSets, a);
    }
  }

  // One step of max-resolution

  function AfterRelax(st: SoftState, core: seq<Formula>): SoftState
    requires core != []
  {
    var r := Rewrite(Core, core, st.next, |core| - 1);
    SoftState(st.asserted + r.defs, st.soft - ToSet(core) + ToSet(r.names), st.offset + 1, st.lo - 1, st.hi, r.next)
  }

  function AfterRestrict(st: SoftState, cs: seq<Formula>): SoftState {
    if cs == [] then st.(asserted := st.asserted + [OrAll(cs)])
    else
      var r := Rewrite(Correction, cs, st.next, |cs| - 1);
      SoftState(st.asserted + r.defs + [OrAll(cs)], st.soft - ToSet(cs) + ToSet(r.names),
                st.offset, st.lo, st.hi, r.next)
  }

  lemma RefutesList(asserted: seq<Formula>, core: seq<Formula>, a: Assignment)
    requires Refutes(asserted, ToSet(core)) && Holds(asserted, a)
    ensures !HoldsAll(ToSet(core), a)
  {
  }

  lemma RelaxKeepsCost(p: Problem, st: SoftState, core: seq<Formula>)
    requires Sound(p, st)
    requires core != [] && Distinct(core) && ToSet(core) <= st.soft && Refutes(st.asserted, ToSet(core))
    ensures CostKept(p, AfterRelax(st, core)) && LowerBound(AfterRelax(st, core))
  {
    var r, st' := Rewrite(Core, core, st.next, |core| - 1), AfterRelax(st, core);
    forall a | Holds(st'.asserted, a)
      ensures Holds(p.hard, a) && Cost(p.soft, a) == Cost(st'.soft, a) + st'.offset && Cost(st'.soft, a) >= st'.lo
    {
      HoldsAppend(st.asserted, r.defs, a);
      RefutesList(st.asserted, core, a);
      RewriteSetCost(Core, st.soft, core, st.next, a);
    }
  }

  lemma RelaxKeepsCheaper(p: Problem, st: SoftState, core: seq<Formula>)
    requires Sound(p, st)
    requires core != [] && ToSet(core) <= st.soft
    ensures CheaperKept(p, AfterRelax(st, core))
  {
    var r, st' := Rewrite(Core, core, st.next, |core| - 1), AfterRelax(st, core);
    assert AllBelow(core, st.next) by { assert forall f :: f in core ==> f in ToSet(core); }
    forall a | Holds(p.hard, a) && Cost(p.soft, a) < st.hi
      ensures Survives(p.first, st'.asserted, a)
    {
      assert Survives(p.first, st.asserted, a);
      var b :| SameBelow(p.first, a, b) && Holds(st.asserted, b);
      var c := RewriteExtends(Core, core, st.next, |core| - 1, b);
      HoldsBelow(st.asserted, st.next, b, c);
      HoldsAppend(st.asserted, r.defs, c);
      assert SameBelow(p.first, a, c);
    }
  }

  /** Relaxing a core moves exactly one unit of cost into the offset and loses no model. */
  lemma SoundRelax(p: Problem, st: SoftState, core: seq<Formula>)
    requires Sound(p, st)
    requires core != [] && Distinct(core) && ToSet(core) <= st.soft && Refutes(st.asserted, ToSet(core))
    ensures Sound(p, AfterRelax(st, core))
  {
    var r := Rewrite(Core, core, st.next, |core| - 1);
    RelaxKeepsCost(p, st, core);
    RelaxKeepsCheaper(p, st, core);
    RewriteSetBelow(Core, st.soft, core, st.next);
    AllBelowMonotone(st.asserted, st.next, r.next);
  }

  lemma RestrictKeepsCost(p: Problem, st: SoftState, cs: seq<Formula>)
    requires Sound(p, st)
    requires Distinct(cs) && ToSet(cs) <= st.soft
    ensures CostKept(p, AfterRestrict(st, cs)) && LowerBound(AfterRestrict(st, cs))
  {
    var st' := AfterRestrict(st, cs);
    forall a | Holds(st'.asserted, a)
      ensures Holds(p.hard, a) && Cost(p.soft, a) == Cost(st'.soft, a) + st'.offset && Cost(st'.soft, a) >= st'.lo
    {
      EvalOrAll(cs, a);
      if cs == [] {
        HoldsAppend(st.asserted, [OrAll(cs)], a);
      } else {
        var r := Rewrite(Correction, cs, st.next, |cs| - 1);
        HoldsAppend(st.asserted + r.defs, [OrAll(cs)], a);
        HoldsAppend(st.asserted, r.defs, a);
        assert Eval(OrAll(cs), a);
        RewriteSetCost(Correction, st.soft, cs, st.next, a);
      }
    }
  }

  // A model cheaper than the upper bound satisfies some member of every correction set.
  lemma CheaperHitsCorrection(p: Problem, st: SoftState, cs: seq<Formula>, b: Assignment)
    requires Sound(p, st)
    requires Distinct(cs) && ToSet(cs) <= st.soft && |cs| + st.offset >= st.hi
    requires Holds(st.asserted, b) && Cost(p.soft, b) < st.hi
    ensures Eval(OrAll(cs), b) && cs != []
  {
    EvalOrAll(cs, b);
    CostRemove(st.soft, ToSet(cs), b);
    CostOfList(cs, b);
    CountTrueNone(cs, b);
  }

  // A model that satisfies some member of the correction set extends to the definitions and the clause.
  lemma RestrictExtends(st: SoftState, cs: seq<Formula>, b: Assignment) returns (c: Assignment)
    requires AllBelow(st.asserted, st.next) && AllBelow(cs, st.next) && cs != []
    requires Holds(st.asserted, b) && Eval(OrAll(cs), b)
    ensures SameBelow(st.next, b, c) && Holds(AfterRestrict(st, cs).asserted, c)
  {
    var r := Rewrite(Correction, cs, st.next, |cs| - 1);
    c := RewriteExtends(Correction, cs, st.next, |cs| - 1, b);
    HoldsBelow(st.asserted, st.next, b, c);
    OrAllBelow(cs, st.next);
    HoldsAppend(st.asserted, r.defs, c);
    HoldsAppend(st.asserted + r.defs, [OrAll(cs)], c);
  }

  lemma RestrictKeepsCheaper(p: Problem, st: SoftState, cs: seq<Formula>)
    requires Sound(p, st)
    requires Distinct(cs) && ToSet(cs) <= st.soft && |cs| + st.offset >= st.hi
    ensures CheaperKept(p, AfterRestrict(st, cs))
  {
    assert AllBelow(cs, st.next) by { assert forall f :: f in cs ==> f in ToSet(cs); }
    forall a | Holds(p.hard, a) && Cost(p.soft, a) < st.hi
      ensures Survives(p.first, AfterRestrict(st, cs).asserted, a)
    {
      assert Survives(p.first, st.asserted, a);
      var b :| SameBelow(p.first, a, b) && Holds(st.asserted, b);
      CostBelow(p.soft, p.first, a, b);
      CheaperHitsCorrection(p, st, cs, b);
      var c := RestrictExtends(st, cs, b);
      assert SameBelow(p.first, a, c);
    }
  }

  lemma OrAllBelow(fs: seq<Formula>, next: nat)
    requires AllBelow(fs, next)
    ensures Below(OrAll(fs), next)
  {
    forall a, b | SameBelow(next, a, b)
      ensures Eval(OrAll(fs), a) == Eval(OrAll(fs), b)
    {
      EvalOrAll(fs, a);
      EvalOrAll(fs, b);
      assert forall f :: f in fs ==> Eval(f, a) == Eval(f, b);
    }
  }

  /**
   Restricting to a correction set keeps the cost; the models its clause excludes are no cheaper than the upper bound.
   */
  lemma SoundRestrict(p: Problem, st: SoftState, cs: seq<Formula>)
    requires Sound(p, st)
    requires Distinct(cs) && ToSet(cs) <= st.soft && |cs| + st.offset >= st.hi
    ensures Sound(p, AfterRestrict(st, cs))
  {
    RestrictKeepsCost(p, st, cs);
    RestrictKeepsCheaper(p, st, cs);
    assert AllBelow(cs, st.next) by { assert forall f :: f in cs ==> f in ToSet(cs); }
    OrAllBelow(cs, st.next);
    if cs != [] {
      var r := Rewrite(Correction, cs, st.next, |cs| - 1);
      RewriteSetBelow(Correction, st.soft, cs, st.next);
      AllBelowMonotone(st.asserted, st.next, r.next);
      BelowMonotone(OrAll(cs), st.next, r.next);
    }
  }
}
