/** A first maximal satisfiable subset, grown from a model with the help of backbone literals. */
module MaximalSubset {
  import opened Formulas
  import opened Lists
  import opened Oracle

  // Adding any other candidate makes the subset unsatisfiable.
  ghost predicate IsMaximal(asserted: seq<Formula>, candidates: set<Formula>, mss: set<Formula>) {
    forall p :: p in candidates - mss ==> Refutes(asserted, mss + {p})
  }

  class MaximalSatisfyingSubset {
    const s: Solver
    var model: Option<Assignment>

    constructor (solver: Solver)
      ensures s == solver && model == None
    {
      s, model := solver, None;
    }

    /** The subset is satisfied by the stored model and maximal; without any model it is empty. */
    method GetMss(ps: seq<Formula>) returns (mss: set<Formula>)
      modifies this
      ensures !Satisfiable(s.asserted) ==> mss == {} && model == old(model)
      ensures Satisfiable(s.asserted) ==>
        && mss <= ToSet(ps)
        && model.Some? && Holds(s.asserted, model.value) && HoldsAll(mss, model.value)
        && IsMaximal(s.asserted, ToSet(ps), mss)
    {
      var isSat := s.CheckSet({});
      if isSat.TimedUnsat? {
        assert forall a :: HoldsAll(isSat.core, a);
        return {};
      }
      assert Satisfiable(s.asserted);
      model := Some(isSat.model);
      var start := set q | q in ps && Eval(q, isSat.model);
      mss := Grow(start, ToSet(ps));
    }

    /** Grows a subset that the stored model satisfies. */
    method Grow(start: set<Formula>, candidates: set<Formula>) returns (mss: set<Formula>)
      requires model.Some? && Holds(s.asserted, model.value) && HoldsAll(start, model.value)
      requires start <= candidates
      modifies this
      ensures start <= mss <= candidates
      ensures model.Some? && Holds(s.asserted, model.value) && HoldsAll(mss, model.value)
      ensures IsMaximal(s.asserted, candidates, mss)
    {
      mss := start;
      var ps := candidates - mss;
      var backbones: set<Formula> := {};
      while ps != {}
        invariant start <= mss <= candidates && ps <= candidates
        invariant model.Some? && Holds(s.asserted, model.value) && HoldsAll(mss, model.value)
        invariant forall n :: n in backbones ==> Entails(s.asserted, mss, n)
        invariant forall p :: p in candidates - mss - ps ==> Not(p) in backbones
        decreases ps
      {
        var p :| p in ps;
        ps := ps - {p};
        var isSat := s.CheckSet(mss + backbones + {p});
        if isSat.TimedSat? {
          model := Some(isSat.model);
          var more := {p} + set q | q in ps && Eval(q, isSat.model);
          StillEntailed(s.asserted, mss, mss + more, backbones);
          mss := mss + more;
          ps := ps - mss;
        } else {
          RefutedBackbone(s.asserted, isSat.core, mss, backbones, p);
          backbones := backbones + {Not(p)};
        }
      }
      forall p | p in candidates - mss
        ensures Refutes(s.asserted, mss + {p})
      {
        EntailedNegation(s.asserted, mss, p);
      }
    }
  }

  lemma StillEntailed(asserted: seq<Formula>, mss: set<Formula>, mss': set<Formula>, backbones: set<Formula>)
    requires mss <= mss' && forall n :: n in backbones ==> Entails(asserted, mss, n)
    ensures forall n :: n in backbones ==> Entails(asserted, mss', n)
  {
    forall n, a | n in backbones && Holds(asserted, a) && HoldsAll(mss', a)
      ensures Eval(n, a)
    {
      assert HoldsAll(mss, a);
      assert Entails(asserted, mss, n);
    }
  }

  // A core over the subset, its consequences and p refutes p given the subset alone.
  lemma RefutedBackbone(asserted: seq<Formula>, core: set<Formula>, mss: set<Formula>, backbones: set<Formula>,
                        p: Formula)
    requires core <= mss + backbones + {p} && Refutes(asserted, core)
    requires forall n :: n in backbones ==> Entails(asserted, mss, n)
    ensures Entails(asserted, mss, Not(p))
  {
    forall a | Holds(asserted, a) && HoldsAll(mss, a)
      ensures Eval(Not(p), a)
    {
      forall n | n in backbones
        ensures Eval(n, a)
      {
        assert Entails(asserted, mss, n);
      }
      var f :| f in core && !Eval(f, a);
    }
  }

  lemma EntailedNegation(asserted: seq<Formula>, mss: set<Formula>, p: Formula)
    requires Entails(asserted, mss, Not(p))
    ensures Refutes(asserted, mss + {p})
  {
    forall a | Holds(asserted, a)
      ensures !HoldsAll(mss + {p}, a)
    {
      if HoldsAll(mss, a) {
        assert Eval(Not(p), a);
        assert p in mss + {p};
      } else {
        var f :| f in mss && !Eval(f, a);
        assert f in mss + {p};
      }
    }
  }
}
