/** Fu and Malik's procedure beyond the range of the counter behind its at-most-one constraint. */
module FuMalikWide {
  import opened Formulas
  import opened Cardinality
  import opened FuMalik

  // All members of the core can be excused at once: all block variables become true.
  ghost function ExcuseAll(soft: seq<Formula>, aux: seq<Formula>, core: seq<Formula>, next: nat,
                           a: Assignment): Assignment
    requires |soft| == |aux|
  {
    if soft == [] then a
    else
      var last := |soft| - 1;
      ExcuseAll(soft[..last], aux[..last], core, next, a) + {Const(Relax(soft[..last], aux[..last], core, next).next)}
  }

  // Everything holds, with no answer literal.
  ghost predicate AllExcused(r: Relaxation, next: nat, a: Assignment, b: Assignment) {
    && next <= r.next && OnlyBelow(b, r.next) && SameBelow(next, a, b)
    && Holds(r.clauses, b) && CountFalse(r.soft, b) == 0 && CountTrue(r.aux, b) == 0
  }

  lemma ExcuseOneMore(r: Relaxation, f: Formula, next: nat, a: Assignment, b: Assignment, r': Relaxation)
    requires AllBelow(r.soft, r.next) && AllBelow(r.aux, r.next) && AllBelow(r.clauses, r.next)
    requires AllExcused(r, next, a, b)
    requires var v, x := Var(Const(r.next)), Var(Const(r.next + 1));
      r' == Relaxation(r.soft + [Or(f, v)], r.aux + [x], r.block + [v], r.clauses + [Or(Or(f, v), x)], r.next + 2)
    ensures AllExcused(r', next, a, b + {Const(r.next)})
  {
    var v, x, b' := Var(Const(r.next)), Var(Const(r.next + 1)), b + {Const(r.next)};
    assert SameBelow(r.next, b, b');
    HoldsBelow(r.clauses, r.next, b, b');
    CountTrueBelow(r.soft, r.next, b, b');
    CountTrueBelow(r.aux, r.next, b, b');
    CountTrueSnoc(r.soft, Or(f, v), b');
    CountTrueSnoc(r.aux, x, b');
    assert Eval(Or(f, v), b') && !Eval(x, b');
    HoldsSnoc(r.clauses, Or(Or(f, v), x), b');
  }

  lemma {:induction false} ExcuseAllWorks(soft: seq<Formula>, aux: seq<Formula>, core: seq<Formula>, next: nat,
                                          a: Assignment)
    requires |soft| == |aux| && AllBelow(soft, next) && AllBelow(aux, next) && OnlyBelow(a, next)
    requires forall i :: 0 <= i < |aux| ==> Not(aux[i]) in core
    ensures AllExcused(Relax(soft, aux, core, next), next, a, ExcuseAll(soft, aux, core, next, a))
  {
    if soft != [] {
      var last := |soft| - 1;
      ExcuseAllWorks(soft[..last], aux[..last], core, next, a);
      RelaxBelow(soft[..last], aux[..last], core, next);
      ExcuseOneMore(Relax(soft[..last], aux[..last], core, next), soft[last], next, a,
                    ExcuseAll(soft[..last], aux[..last], core, next, a), Relax(soft, aux, core, next));
    }
  }

  /**
   Beyond 2^31 the law fails: after a core of all soft constraints the next check succeeds, whatever the least number of
   falsified ones was.
   */
  lemma WideCoreEndsSearch(asserted: seq<Formula>, soft: seq<Formula>, aux: seq<Formula>, next: nat,
                           core: seq<Formula>, added: seq<Formula>)
    requires Linked(asserted, soft, aux, next) && CoreOf(core, asserted, aux) && Satisfiable(asserted)
    requires |core| > COUNTER_LIMIT && forall i :: 0 <= i < |aux| ==> Not(aux[i]) in core
    requires Encodes(added, Relax(soft, aux, core, next).block, OneBound(|core|))
    ensures var r := Relax(soft, aux, core, next);
      Minimum(asserted + r.clauses + added, r.soft, r.aux, 0)
  {
    var r := Relax(soft, aux, core, next);
    var a0 :| Holds(asserted, a0);
    var a := Restrict(a0, next);
    HoldsBelow(asserted, next, a0, a);
    ExcuseAllWorks(soft, aux, core, next, a);
    var b := ExcuseAll(soft, aux, core, next, a);
    HoldsBelow(asserted, next, a, b);
    BlockTotal(soft, aux, core, next);
    HoldsAppend(asserted, r.clauses, b);
    HoldsAppend(asserted + r.clauses, added, b);
  }
}
