/** Core bookkeeping of hitting-set MaxSAT: hitting sets, disjoint families and cores expanded through backbones. */
module HsCores {
  import opened Formulas
  import opened Oracle
  import opened HsBounds

  // Hitting sets

  // Picks a member of every set that is not hit yet.
  method PickHittingSet(coreSets: seq<set<Formula>>) returns (hs: set<Formula>)
    requires forall K :: K in coreSets ==> K != {}
    ensures Hits(hs, coreSets) && |hs| <= |coreSets|
    ensures forall f :: f in hs ==> exists K :: K in coreSets && f in K
  {
    hs := {};
    var i := 0;
    while i < |coreSets|
      invariant |hs| <= i <= |coreSets|
      invariant Hits(hs, coreSets[..i])
      invariant forall f :: f in hs ==> exists K :: K in coreSets && f in K
    {
      var ks := coreSets[i];
      assert ks in coreSets;
      ghost var before := hs;
      if !exists k | k in hs :: k in ks {
        var h :| h in ks;
        hs := hs + {h};
      }
      HitsNext(before, hs, coreSets[..i], ks);
      assert coreSets[..i + 1] == coreSets[..i] + [ks];
      i := i + 1;
    }
    assert coreSets[..i] == coreSets;
  }

  lemma HitsNext(hs: set<Formula>, hs': set<Formula>, coreSets: seq<set<Formula>>, K: set<Formula>)
    requires Hits(hs, coreSets) && hs <= hs'
    requires exists f :: f in K && f in hs'
    ensures Hits(hs', coreSets + [K])
  {
    forall L | L in coreSets
      ensures exists f :: f in L && f in hs'
    {
      var f :| f in L && f in hs;
    }
  }

  lemma HitsAll(hs: set<Formula>, hs': set<Formula>, coreSets: seq<set<Formula>>, n: nat)
    requires n <= |coreSets| && Hits(hs, coreSets[..n]) && hs <= hs'
    requires forall i :: n <= i < |coreSets| ==> exists f :: f in coreSets[i] && f in hs'
    ensures Hits(hs', coreSets)
  {
    forall K | K in coreSets
      ensures exists f :: f in K && f in hs'
    {
      var i :| 0 <= i < |coreSets| && coreSets[i] == K;
      if i < n {
        assert K in coreSets[..n];
        var f :| f in K && f in hs;
      }
    }
  }

  // What the optimising solver answers: a lower bound on hitting sets and, unless it runs out of time, a smallest one.
  datatype Optimum = Optimum(lower: nat, hs: Option<set<Formula>>)

  ghost predicate CorrectOptimum(soft: set<Formula>, coreSets: seq<set<Formula>>, a: Optimum) {
    && HittingBound(soft, coreSets, a.lower)
    && (a.hs.Some? ==> a.hs.value <= soft && Hits(a.hs.value, coreSets) && |a.hs.value| == a.lower)
  }

  ghost predicate CanBeHit(soft: set<Formula>, coreSets: seq<set<Formula>>) {
    forall K :: K in coreSets ==> K != {} && K <= soft
  }

  // The backoff that decides whether the next hitting set is optimised.
  datatype Backoff = Backoff(limit: nat, count: nat, timeout: nat)

  // How the optimising solver is held off after it has answered in time, or has not.
  function Adjusted(b: Backoff, inTime: bool): Backoff {
    if !inTime then Backoff(b.limit + 1, 0, b.timeout + 500)
    else if b.limit > 1 then Backoff(b.limit - 1, 0, b.timeout + 500)
    else b.(count := 0)
  }

  function Raised(lo: int, lower: nat): int {
    if lo < lower then lower else lo
  }

  // What an answer of the optimising solver does to the backoff and the lower bound.
  ghost predicate Uses(a: Optimum, b: Backoff, lo: int, b': Backoff, lo': int, hs: set<Formula>) {
    b' == Adjusted(b, a.hs.Some?) && lo' == Raised(lo, a.lower) && (a.hs.Some? ==> a.hs == Some(hs))
  }

  // What picking a hitting set does, with the last answer of the optimising solver and how often it was asked.
  ghost predicate Picks(coreSets: seq<set<Formula>>, b: Backoff, lo: int, asked: int, last: Optimum,
                        b': Backoff, lo': int, hs: set<Formula>) {
    if coreSets == [] then asked == 0 && b' == b && lo' == lo && hs == {}
    else if b.count < b.limit then asked == 0 && b' == b.(count := b.count + 1) && lo' == lo
    else asked == 1 && Uses(last, b, lo, b', lo', hs)
  }

  method ApproximateHs(soft: set<Formula>, coreSets: seq<set<Formula>>) returns (hs: set<Formula>)
    requires CanBeHit(soft, coreSets)
    ensures hs <= soft && Hits(hs, coreSets)
  {
    hs := PickHittingSet(coreSets);
  }

  class HsPicker {
    var backoff: Backoff
    // how often the optimising solver has been asked, and what it answered last
    ghost var calls: nat
    ghost var last: Optimum

    constructor ()
      ensures backoff == Backoff(0, 0, 6000)
    {
      backoff := Backoff(0, 0, 6000);
    }

    method Optimize(soft: set<Formula>, coreSets: seq<set<Formula>>) returns (lower: nat, hs: Option<set<Formula>>)
      modifies this`calls, this`last
      ensures CorrectOptimum(soft, coreSets, Optimum(lower, hs))
      ensures calls == old(calls) + 1 && last == Optimum(lower, hs)
    {
      lower, hs := SearchHittingSet(soft, coreSets);
      calls, last := calls + 1, Optimum(lower, hs);
    }

    /** A smallest hitting set, or an approximate one while the optimising solver is held off or runs out of time. */
    method PickHs(soft: set<Formula>, coreSets: seq<set<Formula>>, lo: int) returns (hs: set<Formula>, lo': int)
      requires CanBeHit(soft, coreSets)
      modifies this
      ensures hs <= soft && Hits(hs, coreSets)
      ensures calls > old(calls) ==> CorrectOptimum(soft, coreSets, last)
      ensures Picks(coreSets, old(backoff), lo, calls - old(calls), last, backoff, lo', hs)
    {
      if |coreSets| == 0 {
        return {}, lo;
      }
      if backoff.count < backoff.limit {
        backoff := backoff.(count := backoff.count + 1);
        hs := ApproximateHs(soft, coreSets);
        return hs, lo;
      }
      var lower, best := Optimize(soft, coreSets);
      lo' := Raised(lo, lower);
      backoff := Adjusted(backoff, best.Some?);
      if best.Some? {
        hs := best.value;
      } else {
        hs := ApproximateHs(soft, coreSets);
      }
    }
  }

  // An exhaustive search that witnesses what the optimising solver promises; it may run out of time.
  method SearchHittingSet(soft: set<Formula>, coreSets: seq<set<Formula>>)
    returns (lower: nat, hs: Option<set<Formula>>)
    ensures CorrectOptimum(soft, coreSets, Optimum(lower, hs))
  {
    lower, hs := 0, None;
    while lower <= |soft|
      invariant HittingBound(soft, coreSets, lower)
      decreases |soft| + 1 - lower
    {
      if * {
        return;
      }
      if hit: set<Formula> :|
        hit <= soft && |hit| == lower && forall K | K in coreSets :: exists f :: f in K && f in hit {
        hs := Some(hit);
        return;
      }
      forall hit | hit <= soft && Hits(hit, coreSets)
        ensures |hit| >= lower + 1
      {
        assert |hit| != lower;
      }
      lower := lower + 1;
    }
  }

  // Disjoint families

  ghost predicate PairwiseDisjoint(sets: seq<set<Formula>>) {
    forall i, j :: 0 <= i < j < |sets| ==> sets[i] !! sets[j]
  }

  ghost predicate AllWithin(sets: seq<set<Formula>>, hs: set<Formula>) {
    forall K :: K in sets ==> K <= hs
  }

  // Everything in `hs` comes from one of the sets.
  ghost predicate Covers(sets: seq<set<Formula>>, hs: set<Formula>) {
    forall f :: f in hs ==> exists K :: K in sets && f in K
  }

  // The set has been chosen or shares a member with one that has.
  ghost predicate Met(sets: seq<set<Formula>>, K: set<Formula>) {
    exists L :: L in sets && (L == K || !(L !! K))
  }

  // A family of disjoint sets with their union.
  ghost predicate Chosen(sets: seq<set<Formula>>, hs: set<Formula>) {
    PairwiseDisjoint(sets) && AllWithin(sets, hs) && Covers(sets, hs)
  }

  lemma ChosenMore(sets: seq<set<Formula>>, hs: set<Formula>, s: set<Formula>)
    requires Chosen(sets, hs) && s !! hs
    ensures Chosen(sets + [s], hs + s) && Met(sets + [s], s)
  {
    assert forall j :: 0 <= j < |sets| ==> sets[j] in sets && sets[j] <= hs;
    assert s in sets + [s];
    CoversMore(sets, s, hs);
  }

  // The sets of this size among the first have been chosen or meet a chosen one.
  ghost predicate AllMet(sets: seq<set<Formula>>, bound: nat, result: seq<set<Formula>>) {
    forall K :: K in sets && |K| == bound ==> Met(result, K)
  }

  lemma AllMetMore(sets: seq<set<Formula>>, bound: nat, result: seq<set<Formula>>, s: set<Formula>,
                   result': seq<set<Formula>>)
    requires AllMet(sets, bound, result) && result <= result' && (|s| == bound ==> Met(result', s))
    ensures AllMet(sets + [s], bound, result')
  {
    forall K | K in sets + [s] && |K| == bound
      ensures Met(result', K)
    {
      if K in sets {
        MetOn(result, result', K);
      }
    }
  }

  // Appends the set if it has the given size and meets nothing chosen so far.
  method InsertOne(bound: nat, s: set<Formula>, hs: set<Formula>, result: seq<set<Formula>>)
    returns (hs': set<Formula>, result': seq<set<Formula>>)
    requires Chosen(result, hs)
    ensures Chosen(result', hs') && (result' == result || (|s| == bound && result' == result + [s]))
    ensures |s| == bound ==> Met(result', s)
  {
    hs', result' := hs, result;
    if |s| == bound {
      if exists c | c in s :: c in hs {
        MetByCover(result, hs, s);
      } else {
        ChosenMore(result, hs, s);
        hs', result' := hs + s, result + [s];
      }
    }
  }

  // Appends the sets of the given size that meet nothing chosen so far.
  method InsertBySize(bound: nat, sets: seq<set<Formula>>, hs: set<Formula>, result: seq<set<Formula>>)
    returns (hs': set<Formula>, result': seq<set<Formula>>)
    requires Chosen(result, hs)
    ensures Chosen(result', hs') && result <= result'
    ensures forall K :: K in result' ==> K in result || (K in sets && |K| == bound)
    ensures AllMet(sets, bound, result')
  {
    hs', result' := hs, result;
    var i := 0;
    while i < |sets|
      invariant i <= |sets|
      invariant Chosen(result', hs') && result <= result'
      invariant forall K :: K in result' ==> K in result || (K in sets && |K| == bound)
      invariant AllMet(sets[..i], bound, result')
    {
      var s := sets[i];
      ghost var chosen := result';
      hs', result' := InsertOne(bound, s, hs', result');
      AllMetMore(sets[..i], bound, chosen, s, result');
      assert sets[..i + 1] == sets[..i] + [s];
      i := i + 1;
    }
    assert sets[..i] == sets;
  }

  lemma CoversMore(sets: seq<set<Formula>>, s: set<Formula>, hs: set<Formula>)
    requires Covers(sets, hs)
    ensures Covers(sets + [s], hs + s)
  {
    forall f | f in hs + s
      ensures exists K :: K in sets + [s] && f in K
    {
      if f in s {
        assert s in sets + [s];
      } else {
        var K :| K in sets && f in K;
        assert K in sets + [s];
      }
    }
  }

  lemma MetByCover(sets: seq<set<Formula>>, hs: set<Formula>, K: set<Formula>)
    requires Covers(sets, hs) && exists c :: c in K && c in hs
    ensures Met(sets, K)
  {
    var c :| c in K && c in hs;
    var L :| L in sets && c in L;
  }

  lemma MetOn(sets: seq<set<Formula>>, sets': seq<set<Formula>>, K: set<Formula>)
    requires Met(sets, K) && sets <= sets'
    ensures Met(sets', K)
  {
    var L :| L in sets && (L == K || !(L !! K));
    assert L in sets';
  }

  method SmallestSize(sets: seq<set<Formula>>) returns (size: nat)
    requires sets != []
    ensures exists K :: K in sets && |K| == size
    ensures forall K :: K in sets ==> |K| >= size
  {
    size := |sets[0]|;
    var i := 1;
    while i < |sets|
      invariant 1 <= i <= |sets|
      invariant exists K :: K in sets && |K| == size
      invariant forall K :: K in sets[..i] ==> |K| >= size
    {
      if |sets[i]| < size {
        size := |sets[i]|;
      }
      assert sets[..i + 1] == sets[..i] + [sets[i]];
      i := i + 1;
    }
    assert sets[..i] == sets;
  }

  // No set is smaller by more than two.
  ghost predicate IsSmall(sets: seq<set<Formula>>, K: set<Formula>) {
    forall L :: L in sets ==> |K| <= |L| + 2
  }

  ghost predicate SmallFamily(sets: seq<set<Formula>>, family: seq<set<Formula>>) {
    && family != [] && PairwiseDisjoint(family)
    && (forall K :: K in family ==> K in sets && IsSmall(sets, K))
    && (forall K :: K in sets && IsSmall(sets, K) ==> Met(family, K))
  }

  lemma FamilyComplete(sets: seq<set<Formula>>, minSize: nat, hs: set<Formula>, family: seq<set<Formula>>)
    requires Chosen(family, hs) && exists K :: K in sets && |K| == minSize
    requires forall K :: K in sets ==> |K| >= minSize
    requires forall K :: K in family ==> K in sets && |K| < minSize + 3
    requires forall K :: K in sets && |K| < minSize + 3 ==> Met(family, K)
    ensures SmallFamily(sets, family)
  {
    var smallest :| smallest in sets && |smallest| == minSize;
    assert Met(family, smallest);
  }

  /**
   A non-empty family of pairwise disjoint sets, none of them larger than the smallest set by more than two.  Every set
   of such a size has been chosen or meets a chosen one.
   */
  method GetSmallDisjointSets(sets: seq<set<Formula>>) returns (result: seq<set<Formula>>)
    requires sets != []
    ensures SmallFamily(sets, result)
  {
    var hs: set<Formula> := {};
    result := [];
    var minSize := SmallestSize(sets);
    var sz := minSize;
    while sz < minSize + 3
      invariant minSize <= sz <= minSize + 3
      invariant Chosen(result, hs)
      invariant forall K :: K in result ==> K in sets && |K| < minSize + 3
      invariant forall K :: K in sets && |K| < sz ==> Met(result, K)
    {
      ghost var chosen := result;
      hs, result := InsertBySize(sz, sets, hs, result);
      forall K | K in sets && |K| < sz
        ensures Met(result, K)
      {
        MetOn(chosen, result, K);
      }
      sz := sz + 1;
    }
    FamilyComplete(sets, minSize, hs, result);
  }

  // Cores expanded through backbones

  // Every backbone literal follows from the part of `mss` stored with it.
  ghost predicate Backbones(asserted: seq<Formula>, mss: set<Formula>, backbone2core: map<Formula, set<Formula>>) {
    forall n :: n in backbone2core ==> backbone2core[n] <= mss && Entails(asserted, backbone2core[n], n)
  }

  // Replaces every backbone literal of a core by the formulas it follows from.
  function Expand(core: set<Formula>, backbone2core: map<Formula, set<Formula>>): set<Formula> {
    (set c | c in core && c !in backbone2core)
    + (set c, x | c in core && c in backbone2core && x in backbone2core[c] :: x)
  }

  method ExpandCore(core: set<Formula>, backbone2core: map<Formula, set<Formula>>) returns (expanded: set<Formula>)
    ensures expanded == Expand(core, backbone2core)
  {
    expanded := {};
    var rest := core;
    while rest != {}
      invariant rest <= core
      invariant expanded == Expand(core - rest, backbone2core)
      decreases rest
    {
      var c :| c in rest;
      ghost var done := core - rest;
      assert core - (rest - {c}) == done + {c};
      ExpandOne(done, c, backbone2core);
      if c in backbone2core {
        expanded := expanded + backbone2core[c];
      } else {
        expanded := expanded + {c};
      }
      rest := rest - {c};
    }
    assert core - rest == core;
  }

  lemma ExpandOne(done: set<Formula>, c: Formula, backbone2core: map<Formula, set<Formula>>)
    ensures Expand(done + {c}, backbone2core)
            == Expand(done, backbone2core) + if c in backbone2core then backbone2core[c] else {c}
  {
  }

  /** The expanded core is a core again, over the given formulas only. */
  lemma ExpandRefutes(asserted: seq<Formula>, core: set<Formula>, mss: set<Formula>, p: Formula,
                      backbone2core: map<Formula, set<Formula>>)
    requires core <= mss + backbone2core.Keys + {p}
    requires Refutes(asserted, core) && Backbones(asserted, mss, backbone2core)
    ensures Expand(core, backbone2core) <= mss + {p}
    ensures Refutes(asserted, Expand(core, backbone2core))
  {
    var expanded := Expand(core, backbone2core);
    forall a | Holds(asserted, a)
      ensures !HoldsAll(expanded, a)
    {
      var f :| f in core && !Eval(f, a);
      if f in backbone2core {
        assert Entails(asserted, backbone2core[f], f);
        var x :| x in backbone2core[f] && !Eval(x, a);
        assert x in expanded;
      }
    }
  }

  lemma RefutesNonempty(asserted: seq<Formula>, core: set<Formula>)
    requires Satisfiable(asserted) && Refutes(asserted, core)
    ensures core != {}
  {
    var a :| Holds(asserted, a);
    assert !HoldsAll(core, a);
  }

  // A core yields the negation of any of its members as a backbone literal.
  lemma LearnBackbone(asserted: seq<Formula>, core: set<Formula>, p: Formula, mss: set<Formula>,
                      backbone2core: map<Formula, set<Formula>>)
    requires Refutes(asserted, core) && core <= mss + {p} && Backbones(asserted, mss, backbone2core)
    ensures Backbones(asserted, mss, backbone2core[Not(p) := core - {p}])
  {
    forall a | Holds(asserted, a) && HoldsAll(core - {p}, a)
      ensures Eval(Not(p), a)
    {
      var f :| f in core && !Eval(f, a);
      assert f == p;
    }
    assert Entails(asserted, core - {p}, Not(p));
  }

  // What an unsatisfiable check of mss, the backbones and p teaches: a core over mss and p, and a backbone literal.
  method LearnCore(s: Solver, unsatCore: set<Formula>, mss: set<Formula>, p: Formula,
                   backbone2core: map<Formula, set<Formula>>)
    returns (core: set<Formula>, backbone2core': map<Formula, set<Formula>>)
    requires Satisfiable(s.asserted)
    requires unsatCore <= mss + backbone2core.Keys + {p}
    requires Refutes(s.asserted, unsatCore) && Backbones(s.asserted, mss, backbone2core)
    ensures core == Expand(unsatCore, backbone2core) && core != {} && core <= mss + {p} && Refutes(s.asserted, core)
    ensures backbone2core' == backbone2core[Not(p) := core - {p}] && Backbones(s.asserted, mss, backbone2core')
  {
    core := ExpandCore(unsatCore, backbone2core);
    ExpandRefutes(s.asserted, unsatCore, mss, p, backbone2core);
    RefutesNonempty(s.asserted, core);
    LearnBackbone(s.asserted, core, p, mss, backbone2core);
    backbone2core' := backbone2core[Not(p) := core - {p}];
  }

  lemma GrowBackbones(asserted: seq<Formula>, mss: set<Formula>, mss': set<Formula>,
                      backbone2core: map<Formula, set<Formula>>)
    requires Backbones(asserted, mss, backbone2core) && mss <= mss'
    ensures Backbones(asserted, mss', backbone2core)
  {
    forall n | n in backbone2core
      ensures backbone2core[n] <= mss'
    {
      assert backbone2core[n] <= mss;
    }
  }
}
