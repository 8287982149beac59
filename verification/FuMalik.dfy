/** Fu and Malik's core-guided MaxSAT: relax the constraints of each core by one, until none is left. */
module FuMalik {
  import opened Formulas
  import opened Lists
  import opened Oracle
  import opened Cardinality
  import opened MachineIntegers
  import opened MaxSat

  // What one round makes of the soft constraints and their answer literals: the block variables it introduces,
  // the clauses it asserts and the counter it leaves behind.
  datatype Relaxation = Relaxation(
    soft: seq<Formula>, aux: seq<Formula>, block: seq<Formula>, clauses: seq<Formula>, next: nat)

  function Relax(soft: seq<Formula>, aux: seq<Formula>, core: seq<Formula>, next: nat): Relaxation
    requires |soft| == |aux|
  {
    if soft == [] then Relaxation([], [], [], [], next)
    else
      var last := |soft| - 1;
      var r := Relax(soft[..last], aux[..last], core, next);
      if Not(aux[last]) in core then
        var b, x := Var(Const(r.next)), Var(Const(r.next + 1));
        var f := Or(soft[last], b);
        Relaxation(r.soft + [f], r.aux + [x], r.block + [b], r.clauses + [Or(f, x)], r.next + 2)
      else
        Relaxation(r.soft + [soft[last]], r.aux + [aux[last]], r.block, r.clauses, r.next)
  }

  // Soft constraint i is asserted together with its answer literal, and nothing depends on names yet to be drawn.
  ghost predicate Linked(asserted: seq<Formula>, soft: seq<Formula>, aux: seq<Formula>, next: nat) {
    && |soft| == |aux|
    && Distinct(aux)
    && AllBelow(asserted, next) && AllBelow(soft, next) && AllBelow(aux, next)
    && forall i :: 0 <= i < |soft| ==> Or(soft[i], aux[i]) in asserted
  }

  // `cost` is the least number of current soft constraints that a model of the assertions falsifies,
  // and some model reaches it with only that many answer literals.
  ghost predicate Minimum(asserted: seq<Formula>, soft: seq<Formula>, aux: seq<Formula>, cost: nat) {
    && (forall a :: Holds(asserted, a) ==> CountFalse(soft, a) >= cost)
    && Attains(asserted, aux, cost)
  }

  ghost predicate Attains(asserted: seq<Formula>, aux: seq<Formula>, cost: nat) {
    exists a :: Holds(asserted, a) && CountTrue(aux, a) == cost
  }

  lemma LinkedCover(asserted: seq<Formula>, soft: seq<Formula>, aux: seq<Formula>, next: nat, a: Assignment)
    requires Linked(asserted, soft, aux, next) && Holds(asserted, a)
    ensures forall i :: 0 <= i < |soft| ==> Eval(soft[i], a) || Eval(aux[i], a)
    ensures CountFalse(soft, a) <= CountTrue(aux, a)
  {
    forall i | 0 <= i < |soft|
      ensures Eval(soft[i], a) || Eval(aux[i], a)
    {
      assert Eval(Or(soft[i], aux[i]), a);
    }
    AnswersCoverFalsified(soft, aux, a);
  }

  // Shape of a relaxation

  lemma {:induction false} RelaxShape(soft: seq<Formula>, aux: seq<Formula>, core: seq<Formula>, next: nat)
    requires |soft| == |aux|
    ensures var r := Relax(soft, aux, core, next);
      && |r.soft| == |r.aux| == |soft|
      && next <= r.next
      && forall i :: 0 <= i < |soft| ==>
           if Not(aux[i]) in core then Or(r.soft[i], r.aux[i]) in r.clauses
           else r.soft[i] == soft[i] && r.aux[i] == aux[i]
  {
    if soft != [] {
      var last := |soft| - 1;
      RelaxShape(soft[..last], aux[..last], core, next);
    }
  }

  lemma BelowOr(f: Formula, g: Formula, next: nat)
    requires Below(f, next) && Below(g, next)
    ensures Below(Or(f, g), next)
  {
  }

  lemma AllBelowSnoc(fs: seq<Formula>, next: nat, f: Formula, next': nat)
    requires AllBelow(fs, next) && next <= next' && Below(f, next')
    ensures AllBelow(fs + [f], next')
  {
    AllBelowMonotone(fs, next, next');
  }

  lemma {:induction false} RelaxBelow(soft: seq<Formula>, aux: seq<Formula>, core: seq<Formula>, next: nat)
    requires |soft| == |aux| && AllBelow(soft, next) && AllBelow(aux, next)
    ensures var r := Relax(soft, aux, core, next);
      && next <= r.next
      && AllBelow(r.soft, r.next) && AllBelow(r.aux, r.next)
      && AllBelow(r.block, r.next) && AllBelow(r.clauses, r.next)
  {
    if soft != [] {
      var last := |soft| - 1;
      RelaxBelow(soft[..last], aux[..last], core, next);
      var r := Relax(soft[..last], aux[..last], core, next);
      BelowMonotone(soft[last], next, r.next + 2);
      if Not(aux[last]) in core {
        var b, x := Var(Const(r.next)), Var(Const(r.next + 1));
        BelowFromSymbols(b, r.next + 2);
        BelowFromSymbols(x, r.next + 2);
        BelowOr(soft[last], b, r.next + 2);
        BelowOr(Or(soft[last], b), x, r.next + 2);
        AllBelowSnoc(r.soft, r.next, Or(soft[last], b), r.next + 2);
        AllBelowSnoc(r.aux, r.next, x, r.next + 2);
        AllBelowSnoc(r.block, r.next, b, r.next + 2);
        AllBelowSnoc(r.clauses, r.next, Or(Or(soft[last], b), x), r.next + 2);
      } else {
        BelowMonotone(soft[last], next, r.next);
        BelowMonotone(aux[last], next, r.next);
        AllBelowSnoc(r.soft, r.next, soft[last], r.next);
        AllBelowSnoc(r.aux, r.next, aux[last], r.next);
      }
    }
  }

  // Each block variable excuses at most one constraint.
  lemma {:induction false} RelaxExcuses(soft: seq<Formula>, aux: seq<Formula>, core: seq<Formula>, next: nat,
                                        a: Assignment)
    requires |soft| == |aux|
    ensures var r := Relax(soft, aux, core, next);
      |r.soft| == |soft| && CountFalse(soft, a) <= CountFalse(r.soft, a) + CountTrue(r.block, a)
  {
    if soft != [] {
      var last := |soft| - 1;
      RelaxExcuses(soft[..last], aux[..last], core, next, a);
      var r := Relax(soft[..last], aux[..last], core, next);
      var b := Var(Const(r.next));
      CountTrueSnoc(r.soft, Or(soft[last], b), a);
      CountTrueSnoc(r.soft, soft[last], a);
      CountTrueSnoc(r.block, b, a);
    }
  }

  // The new symbols made true when constraint w of the core is the one to be excused: its block variable, and
  // the new answer literals of the other core members whose old answer literal is true.
  ghost function Excuse(soft: seq<Formula>, aux: seq<Formula>, core: seq<Formula>, next: nat, a: Assignment,
                        w: nat): Assignment
    requires |soft| == |aux|
  {
    if soft == [] then a
    else
      var last := |soft| - 1;
      var b := Excuse(soft[..last], aux[..last], core, next, a, w);
      var n := Relax(soft[..last], aux[..last], core, next).next;
      if Not(aux[last]) !in core then b
      else if last == w then b + {Const(n)}
      else if Eval(aux[last], a) then b + {Const(n + 1)}
      else b
  }

  lemma {:induction false} ExcuseSame(soft: seq<Formula>, aux: seq<Formula>, core: seq<Formula>, next: nat,
                                      a: Assignment, w: nat)
    requires |soft| == |aux| && OnlyBelow(a, next)
    ensures var r := Relax(soft, aux, core, next);
      var b := Excuse(soft, aux, core, next, a, w);
      next <= r.next && OnlyBelow(b, r.next) && SameBelow(next, a, b)
  {
    if soft != [] {
      var last := |soft| - 1;
      ExcuseSame(soft[..last], aux[..last], core, next, a, w);
    }
  }

  // One member of the core: it is the excused one, or its new answer literal takes over from the old one.
  lemma ExcuseMember(r: Relaxation, f: Formula, b: Assignment, b': Assignment, excused: bool, answered: bool)
    requires AllBelow(r.aux, r.next) && AllBelow(r.block, r.next) && AllBelow(r.clauses, r.next) && Below(f, r.next)
    requires OnlyBelow(b, r.next) && Holds(r.clauses, b) && (Eval(f, b) || excused || answered)
    requires b' == if excused then b + {Const(r.next)} else if answered then b + {Const(r.next + 1)} else b
    ensures var v, x := Var(Const(r.next)), Var(Const(r.next + 1));
      && Holds(r.clauses + [Or(Or(f, v), x)], b')
      && CountTrue(r.block + [v], b') == CountTrue(r.block, b) + (if excused then 1 else 0)
      && CountTrue(r.aux + [x], b') == CountTrue(r.aux, b) + (if answered && !excused then 1 else 0)
  {
    var v, x := Var(Const(r.next)), Var(Const(r.next + 1));
    assert SameBelow(r.next, b, b');
    HoldsBelow(r.clauses, r.next, b, b');
    CountTrueBelow(r.block, r.next, b, b');
    CountTrueBelow(r.aux, r.next, b, b');
    CountTrueSnoc(r.block, v, b');
    CountTrueSnoc(r.aux, x, b');
    HoldsAppend(r.clauses, [Or(Or(f, v), x)], b');
  }

  // The excuse satisfies the new clauses, sets at most one block variable and saves one answer literal.
  lemma {:induction false} ExcuseWorks(soft: seq<Formula>, aux: seq<Formula>, core: seq<Formula>, next: nat,
                                       a: Assignment, w: nat)
    requires |soft| == |aux| && AllBelow(soft, next) && AllBelow(aux, next) && OnlyBelow(a, next)
    requires forall i :: 0 <= i < |soft| ==> Eval(soft[i], a) || Eval(aux[i], a)
    requires w < |soft| ==> Not(aux[w]) in core && Eval(aux[w], a)
    ensures var r := Relax(soft, aux, core, next);
      var b := Excuse(soft, aux, core, next, a, w);
      var saved := if w < |soft| then 1 else 0;
      && Holds(r.clauses, b)
      && CountTrue(r.block, b) == saved
      && CountTrue(r.aux, b) + saved == CountTrue(aux, a)
  {
    if soft != [] {
      var last := |soft| - 1;
      ExcuseWorks(soft[..last], aux[..last], core, next, a, w);
      ExcuseSame(soft[..last], aux[..last], core, next, a, w);
      var r := Relax(soft[..last], aux[..last], core, next);
      var b := Excuse(soft[..last], aux[..last], core, next, a, w);
      assert Below(soft[last], next) && Below(aux[last], next);
      if Not(aux[last]) in core {
        RelaxBelow(soft[..last], aux[..last], core, next);
        BelowMonotone(soft[last], next, r.next);
        ExcuseMember(r, soft[last], b, Excuse(soft, aux, core, next, a, w), last == w, Eval(aux[last], a));
      } else {
        CountTrueSnoc(r.aux, aux[last], b);
      }
    }
  }

  // One round

  lemma RelaxLinked(asserted: seq<Formula>, soft: seq<Formula>, aux: seq<Formula>, next: nat, core: seq<Formula>,
                    added: seq<Formula>, bound: nat)
    requires Linked(asserted, soft, aux, next)
    requires Encodes(added, Relax(soft, aux, core, next).block, bound)
    ensures var r := Relax(soft, aux, core, next);
      Linked(asserted + r.clauses + added, r.soft, r.aux, r.next)
  {
    var r := Relax(soft, aux, core, next);
    RelaxShape(soft, aux, core, next);
    RelaxBelow(soft, aux, core, next);
    RelaxDistinct(soft, aux, core, next);
    EncodesBelow(added, r.block, bound, r.next);
    AllBelowMonotone(asserted, next, r.next);
    forall i | 0 <= i < |soft|
      ensures Or(r.soft[i], r.aux[i]) in asserted + r.clauses
    {
      assert Or(soft[i], aux[i]) in asserted;
    }
  }

  // An answer literal is an old one left in place or a new name, and no two are the same.
  lemma {:induction false} RelaxDistinct(soft: seq<Formula>, aux: seq<Formula>, core: seq<Formula>, next: nat)
    requires |soft| == |aux| && AllBelow(aux, next) && Distinct(aux)
    ensures var r := Relax(soft, aux, core, next);
      && |r.aux| == |aux| && next <= r.next
      && (forall i :: 0 <= i < |aux| ==> r.aux[i] == aux[i] || IsName(r.aux[i], next, r.next))
      && Distinct(r.aux)
  {
    if soft != [] {
      var last := |soft| - 1;
      RelaxDistinct(soft[..last], aux[..last], core, next);
      var r := Relax(soft[..last], aux[..last], core, next);
      forall i | 0 <= i < last
        ensures r.aux[i] != aux[last] && r.aux[i] != Var(Const(r.next + 1))
      {
        NotAName(aux[last], next);
        NotAName(aux[i], next);
      }
    }
  }

  ghost predicate IsName(f: Formula, from: nat, to: nat) {
    f.Var? && f.symbol.Const? && from <= f.symbol.id < to
  }

  lemma NotAName(f: Formula, next: nat)
    requires Below(f, next)
    ensures f.Var? && f.symbol.Const? ==> f.symbol.id < next
  {
    if f.Var? {
      assert SameBelow(next, {}, {f.symbol}) || (f.symbol.Const? ==> f.symbol.id < next);
    }
  }

  // Every member of the core is the negation of an answer literal.
  ghost predicate CoreOf(core: seq<Formula>, asserted: seq<Formula>, aux: seq<Formula>) {
    && Distinct(core)
    && (forall f :: f in core ==> exists i :: 0 <= i < |aux| && f == Not(aux[i]))
    && (forall a :: Holds(asserted, a) ==> !Holds(core, a))
  }

  // No model of the next state falsifies fewer than cost - 1 of its soft constraints.
  lemma StepLower(asserted: seq<Formula>, soft: seq<Formula>, aux: seq<Formula>, next: nat, core: seq<Formula>,
                  added: seq<Formula>, cost: nat)
    requires |soft| == |aux|
    requires forall a :: Holds(asserted, a) ==> CountFalse(soft, a) >= cost
    requires Encodes(added, Relax(soft, aux, core, next).block, 1)
    ensures var r := Relax(soft, aux, core, next);
      forall a :: Holds(asserted + r.clauses + added, a) ==> CountFalse(r.soft, a) + 1 >= cost
  {
    var r := Relax(soft, aux, core, next);
    forall a | Holds(asserted + r.clauses + added, a)
      ensures CountFalse(r.soft, a) + 1 >= cost
    {
      HoldsAppend(asserted + r.clauses, added, a);
      HoldsAppend(asserted, r.clauses, a);
      RelaxExcuses(soft, aux, core, next, a);
    }
  }

  // Some model of the next state gets by with one answer literal less.
  lemma StepAttained(asserted: seq<Formula>, soft: seq<Formula>, aux: seq<Formula>, next: nat, core: seq<Formula>,
                     added: seq<Formula>, bound: nat, a0: Assignment) returns (b: Assignment)
    requires Linked(asserted, soft, aux, next) && CoreOf(core, asserted, aux)
    requires bound >= 1 && Encodes(added, Relax(soft, aux, core, next).block, bound)
    requires Holds(asserted, a0)
    ensures var r := Relax(soft, aux, core, next);
      Holds(asserted + r.clauses + added, b) && CountTrue(r.aux, b) + 1 == CountTrue(aux, a0)
  {
    var r := Relax(soft, aux, core, next);
    var a := Restrict(a0, next);
    HoldsBelow(asserted, next, a0, a);
    CountTrueBelow(aux, next, a0, a);
    LinkedCover(asserted, soft, aux, next, a);
    var f :| f in core && !Eval(f, a);
    var w :| 0 <= w < |aux| && f == Not(aux[w]);
    ExcuseWorks(soft, aux, core, next, a, w);
    ExcuseSame(soft, aux, core, next, a, w);
    b := Excuse(soft, aux, core, next, a, w);
    HoldsBelow(asserted, next, a, b);
    HoldsAppend(asserted + r.clauses, added, b);
    HoldsAppend(asserted, r.clauses, b);
  }

  /**
   The law of a round: after an unsatisfiable check, relaxing the core lowers the least number of falsified soft
   constraints by exactly one.
   */
  lemma StepLaw(asserted: seq<Formula>, soft: seq<Formula>, aux: seq<Formula>, next: nat, core: seq<Formula>,
                added: seq<Formula>, cost: nat)
    requires Linked(asserted, soft, aux, next) && CoreOf(core, asserted, aux)
    requires Minimum(asserted, soft, aux, cost)
    requires Encodes(added, Relax(soft, aux, core, next).block, 1)
    ensures cost >= 1
    ensures var r := Relax(soft, aux, core, next);
      Minimum(asserted + r.clauses + added, r.soft, r.aux, cost - 1)
  {
    StepLower(asserted, soft, aux, next, core, added, cost);
    var a :| Holds(asserted, a) && CountTrue(aux, a) == cost;
    var b := StepAttained(asserted, soft, aux, next, core, added, 1, a);
  }

  // Counting block variables: one for each member of the core

  ghost function Negated(aux: seq<Formula>): set<Formula> {
    set f | f in aux :: Not(f)
  }

  lemma NegatedSnoc(aux: seq<Formula>, f: Formula)
    ensures Negated(aux + [f]) == Negated(aux) + {Not(f)}
  {
    assert forall g :: g in aux + [f] <==> g in aux || g == f;
  }

  lemma {:induction false} BlockCount(soft: seq<Formula>, aux: seq<Formula>, core: seq<Formula>, next: nat)
    requires |soft| == |aux| && Distinct(aux)
    ensures |Relax(soft, aux, core, next).block| == |Negated(aux) * ToSet(core)|
  {
    if soft == [] {
      assert Negated(aux) * ToSet(core) == {};
    } else {
      var last := |soft| - 1;
      var init, f := aux[..last], aux[last];
      BlockCount(soft[..last], init, core, next);
      assert |Relax(soft, aux, core, next).block|
             == |Relax(soft[..last], init, core, next).block| + if Not(f) in core then 1 else 0;
      NegatedCount(init, f, ToSet(core));
      assert aux == init + [f];
    }
  }

  lemma NegatedCount(aux: seq<Formula>, f: Formula, core: set<Formula>)
    requires f !in aux
    ensures |Negated(aux + [f]) * core| == |Negated(aux) * core| + if Not(f) in core then 1 else 0
  {
    NegatedSnoc(aux, f);
    CutSize(Negated(aux), Not(f), core);
  }

  lemma CutSize(x: set<Formula>, f: Formula, y: set<Formula>)
    requires f !in x
    ensures |(x + {f}) * y| == |x * y| + if f in y then 1 else 0
  {
    if f in y {
      assert (x + {f}) * y == x * y + {f};
    } else {
      assert (x + {f}) * y == x * y;
    }
  }

  // There is room for the next block variable.
  lemma BlockRoom(soft: seq<Formula>, aux: seq<Formula>, core: seq<Formula>, next: nat, i: nat)
    requires |soft| == |aux| && Distinct(aux) && Distinct(core)
    requires i < |aux| && Not(aux[i]) in core
    ensures |Relax(soft[..i], aux[..i], core, next).block| < |core|
  {
    BlockCount(soft[..i], aux[..i], core, next);
    DistinctSize(core);
    var before := Negated(aux[..i]) * ToSet(core);
    assert Not(aux[i]) !in before && Not(aux[i]) in ToSet(core);
    SubsetSize(before, ToSet(core));
  }

  lemma BlockTotal(soft: seq<Formula>, aux: seq<Formula>, core: seq<Formula>, next: nat)
    requires |soft| == |aux| && Distinct(aux) && Distinct(core)
    requires forall f :: f in core ==> exists i :: 0 <= i < |aux| && f == Not(aux[i])
    ensures |Relax(soft, aux, core, next).block| == |core|
  {
    BlockCount(soft, aux, core, next);
    DistinctSize(core);
    assert Negated(aux) * ToSet(core) == ToSet(core);
  }

  // The procedure

  // The index of `f` in `core`, or the length of `core`.
  method FindInCore(f: Formula, core: seq<Formula>) returns (j: nat)
    ensures j <= |core|
    ensures j < |core| <==> f in core
    ensures j < |core| ==> core[j] == f
  {
    j := 0;
    while j < |core|
      invariant j <= |core|
      invariant f !in core[..j]
    {
      if f == core[j] {
        break;
      }
      j := j + 1;
    }
  }

  // The first i constraints have been rewritten as the relaxation says, the others not yet.
  ghost predicate Progress(soft: seq<Formula>, aux: seq<Formula>, core: seq<Formula>, next: nat, i: nat,
                           now: Relaxation) {
    && |soft| == |aux| == |now.soft| == |now.aux| && i <= |soft|
    && Relax(soft[..i], aux[..i], core, next) == now.(soft := now.soft[..i], aux := now.aux[..i])
    && now.soft[i..] == soft[i..] && now.aux[i..] == aux[i..]
  }

  // What one turn of the loop does.
  function Advance(core: seq<Formula>, i: nat, now: Relaxation): Relaxation
    requires i < |now.soft| == |now.aux|
  {
    if Not(now.aux[i]) in core then
      var b, x := Var(Const(now.next)), Var(Const(now.next + 1));
      var f := Or(now.soft[i], b);
      Relaxation(now.soft[i := f], now.aux[i := x], now.block + [b], now.clauses + [Or(f, x)], now.next + 2)
    else now
  }

  lemma ProgressStep(soft: seq<Formula>, aux: seq<Formula>, core: seq<Formula>, next: nat, i: nat, now: Relaxation)
    requires Progress(soft, aux, core, next, i, now) && i < |soft|
    ensures now.aux[i] == aux[i]
    ensures Progress(soft, aux, core, next, i + 1, Advance(core, i, now))
  {
    assert now.soft[i..][0] == soft[i..][0] && now.aux[i..][0] == aux[i..][0];
    assert soft[..i + 1][..i] == soft[..i] && aux[..i + 1][..i] == aux[..i];
    var after := Advance(core, i, now);
    assert after.soft[..i + 1] == now.soft[..i] + [after.soft[i]]
      && after.aux[..i + 1] == now.aux[..i] + [after.aux[i]];
    assert after.soft[i + 1..] == now.soft[i..][1..] == soft[i + 1..];
    assert after.aux[i + 1..] == now.aux[i..][1..] == aux[i + 1..];
  }

  // Rewrites one member of the core in place.
  method RelaxMember(ctx: Context, s: Solver, softCnstrs: array<Formula>, auxVars: array<Formula>, i: nat,
                     blockVars: array<Formula>, k: nat, ghost core: seq<Formula>, ghost now: Relaxation)
    requires i < softCnstrs.Length == auxVars.Length && k < blockVars.Length
    requires softCnstrs != auxVars && blockVars != softCnstrs && blockVars != auxVars
    requires now == Relaxation(softCnstrs[..], auxVars[..], blockVars[..k], now.clauses, ctx.next)
      && Not(auxVars[i]) in core
    modifies ctx, s, softCnstrs, auxVars, blockVars
    ensures var after := Advance(core, i, now);
      && after == Relaxation(softCnstrs[..], auxVars[..], blockVars[..k + 1], after.clauses, ctx.next)
      && after.clauses == now.clauses + [Or(softCnstrs[i], auxVars[i])]
      && s.asserted == old(s.asserted) + [Or(softCnstrs[i], auxVars[i])]
  {
    var blockVar := ctx.MkFresh();
    var newAuxVar := ctx.MkFresh();
    softCnstrs[i] := Or(softCnstrs[i], blockVar);
    auxVars[i] := newAuxVar;
    blockVars[k] := blockVar;
    assert blockVars[..k + 1] == now.block + [blockVar];
    s.Assert(Or(softCnstrs[i], newAuxVar));
  }

  // One turn of the loop over the soft constraints.
  method RelaxTurn(ctx: Context, s: Solver, softCnstrs: array<Formula>, auxVars: array<Formula>,
                   assumption: Formula, i: nat, core: seq<Formula>, blockVars: array<Formula>, k: nat,
                   ghost before: seq<Formula>, ghost now: Relaxation)
    returns (k': nat)
    requires i < softCnstrs.Length == auxVars.Length && k <= blockVars.Length
    requires softCnstrs != auxVars && blockVars != softCnstrs && blockVars != auxVars
    requires now == Relaxation(softCnstrs[..], auxVars[..], blockVars[..k], now.clauses, ctx.next)
    requires s.asserted == before + now.clauses && assumption == Not(auxVars[i])
    requires assumption in core ==> k < blockVars.Length
    modifies ctx, s, softCnstrs, auxVars, blockVars
    ensures var after := Advance(core, i, now);
      && k' <= blockVars.Length
      && after == Relaxation(softCnstrs[..], auxVars[..], blockVars[..k'], after.clauses, ctx.next)
      && s.asserted == before + after.clauses
  {
    k' := k;
    assert now.aux[i] == auxVars[i];
    var j := FindInCore(assumption, core);
    if j < |core| {
      RelaxMember(ctx, s, softCnstrs, auxVars, i, blockVars, k, core, now);
      k' := k + 1;
    }
  }

  // The loop over the soft constraints that rewrites the members of the core.
  method RelaxCore(ctx: Context, s: Solver, softCnstrs: array<Formula>, auxVars: array<Formula>,
                   assumptions: seq<Formula>, core: seq<Formula>, blockVars: array<Formula>) returns (k: nat)
    requires softCnstrs.Length == auxVars.Length == |assumptions|
    requires softCnstrs != auxVars && blockVars != softCnstrs && blockVars != auxVars
    requires blockVars.Length == |core|
    requires Distinct(auxVars[..]) && Distinct(core)
    requires forall i :: 0 <= i < |assumptions| ==> assumptions[i] == Not(auxVars[i])
    modifies ctx, s, softCnstrs, auxVars, blockVars
    ensures k <= blockVars.Length
    ensures var r := Relax(old(softCnstrs[..]), old(auxVars[..]), core, old(ctx.next));
      && r == Relaxation(softCnstrs[..], auxVars[..], blockVars[..k], r.clauses, ctx.next)
      && s.asserted == old(s.asserted) + r.clauses
  {
    ghost var soft, aux, next := softCnstrs[..], auxVars[..], ctx.next;
    ghost var now := Relaxation(soft, aux, [], [], next);
    k := 0;
    var i := 0;
    while i < softCnstrs.Length
      invariant i <= softCnstrs.Length
      invariant k <= blockVars.Length
      invariant now == Relaxation(softCnstrs[..], auxVars[..], blockVars[..k], now.clauses, ctx.next)
      invariant s.asserted == old(s.asserted) + now.clauses
      invariant Progress(soft, aux, core, next, i, now)
    {
      ProgressStep(soft, aux, core, next, i, now);
      if Not(aux[i]) in core {
        BlockRoom(soft, aux, core, next, i);
      }
      k := RelaxTurn(ctx, s, softCnstrs, auxVars, assumptions[i], i, core, blockVars, k, old(s.asserted), now);
      now := Advance(core, i, now);
      i := i + 1;
    }
    assert soft[..i] == soft && aux[..i] == aux;
    assert now.soft[..i] == now.soft && now.aux[..i] == now.aux;
  }

  // What a round does once a core is known.
  method RelaxRound(ctx: Context, s: Solver, softCnstrs: array<Formula>, auxVars: array<Formula>,
                    assumptions: seq<Formula>, core: seq<Formula>)
    requires softCnstrs != auxVars
    requires softCnstrs.Length == auxVars.Length == |assumptions| && softCnstrs.Length + 1 < UNSIGNED_LIMIT
    requires Linked(s.asserted, softCnstrs[..], auxVars[..], ctx.next)
    requires forall i :: 0 <= i < |assumptions| ==> assumptions[i] == Not(auxVars[i])
    requires CoreOf(core, s.asserted, auxVars[..])
    modifies ctx, s, softCnstrs, auxVars
    ensures var r := Relax(old(softCnstrs[..]), old(auxVars[..]), core, old(ctx.next));
      && softCnstrs[..] == r.soft && auxVars[..] == r.aux && ctx.next == r.next
      && |r.block| == |core| <= |assumptions|
      && old(s.asserted) + r.clauses <= s.asserted
      && Encodes(s.asserted[|old(s.asserted) + r.clauses|..], r.block, OneBound(|core|))
  {
    ghost var soft, aux, next := softCnstrs[..], auxVars[..], ctx.next;
    BlockTotal(soft, aux, core, next);
    CoreSize(core, aux);
    var blockVars := new Formula[|core|](_ => False);
    assert softCnstrs[..] == soft && auxVars[..] == aux;
    var k := RelaxCore(ctx, s, softCnstrs, auxVars, assumptions, core, blockVars);
    ghost var r := Relax(soft, aux, core, next);
    assert |blockVars[..k]| == k == |core|;
    AssertAtMostOne(s, k, blockVars);
  }

  // Rounds as steps from state to state

  datatype State = State(asserted: seq<Formula>, soft: seq<Formula>, aux: seq<Formula>, next: nat)

  // What a round makes of the state when the solver answers with this core.
  ghost predicate RoundTo(st: State, core: seq<Formula>, st': State) {
    && |st.soft| == |st.aux| && CoreOf(core, st.asserted, st.aux)
    && var r := Relax(st.soft, st.aux, core, st.next);
      && st' == State(st'.asserted, r.soft, r.aux, r.next)
      && st.asserted + r.clauses <= st'.asserted
      && Encodes(st'.asserted[|st.asserted + r.clauses|..], r.block, OneBound(|core|))
  }

  ghost predicate Follows(st: State, st': State) {
    exists core :: RoundTo(st, core, st')
  }

  // The check succeeds: all answer literals can be false together.
  ghost predicate Ends(st: State) {
    Attains(st.asserted, st.aux, 0)
  }

  /**
   One round: a step of the state, or the end when no answer literal is needed.  A step leaves one answer literal less
   than before and, with at most 2^31 soft constraints, the least number of falsified ones drops by exactly one.
   */
  method FuMalikMaxSatStep(ctx: Context, s: Solver, softCnstrs: array<Formula>, auxVars: array<Formula>)
    returns (done: bool)
    requires softCnstrs != auxVars
    requires softCnstrs.Length + 1 < UNSIGNED_LIMIT
    requires Linked(s.asserted, softCnstrs[..], auxVars[..], ctx.next)
    modifies ctx, s, softCnstrs, auxVars
    ensures Linked(s.asserted, softCnstrs[..], auxVars[..], ctx.next)
    ensures done ==> s.asserted == old(s.asserted) && ctx.next == old(ctx.next)
    ensures done ==> softCnstrs[..] == old(softCnstrs[..]) && auxVars[..] == old(auxVars[..])
    ensures done ==> Ends(State(s.asserted, softCnstrs[..], auxVars[..], ctx.next))
    ensures done ==> exists a :: Holds(s.asserted, a) && CountFalse(softCnstrs[..], a) == 0
    ensures !done ==> Follows(old(State(s.asserted, softCnstrs[..], auxVars[..], ctx.next)),
                              State(s.asserted, softCnstrs[..], auxVars[..], ctx.next))
    ensures !done ==> Drops(old(s.asserted), old(auxVars[..]), s.asserted, auxVars[..])
    ensures !done && softCnstrs.Length <= COUNTER_LIMIT ==>
      Lowered(old(s.asserted), old(softCnstrs[..]), old(auxVars[..]), s.asserted, softCnstrs[..], auxVars[..])
  {
    ghost var soft, aux, asserted, next := softCnstrs[..], auxVars[..], s.asserted, ctx.next;
    var n := softCnstrs.Length;
    assert auxVars.Length == |aux| == |soft| == n;
    var assumptions := new Formula[n](_ => False);
    var i := 0;
    while i < n
      invariant i <= n
      invariant forall j :: 0 <= j < i ==> assumptions[j] == Not(auxVars[j])
      modifies assumptions
    {
      assumptions[i] := Not(auxVars[i]);
      i := i + 1;
    }
    assert softCnstrs[..] == soft && auxVars[..] == aux;
    var isSat := s.Check(assumptions[..]);
    if isSat.Sat? {
      AllAnswersOff(asserted, soft, aux, next, assumptions[..], isSat.model);
      return true;
    }
    var core := isSat.core;
    assert CoreOf(core, asserted, aux);
    RelaxRound(ctx, s, softCnstrs, auxVars, assumptions[..], core);
    RoundLaw(asserted, soft, aux, next, core, s.asserted, OneBound(|core|));
    assert RoundTo(State(asserted, soft, aux, next), core, State(s.asserted, softCnstrs[..], auxVars[..], ctx.next));
    return false;
  }

  // From one state to the next the least number of falsified soft constraints drops by exactly one.
  ghost predicate Lowered(asserted: seq<Formula>, soft: seq<Formula>, aux: seq<Formula>,
                          asserted': seq<Formula>, soft': seq<Formula>, aux': seq<Formula>) {
    forall cost: nat :: Minimum(asserted, soft, aux, cost) ==> cost >= 1 && Minimum(asserted', soft', aux', cost - 1)
  }

  // Whatever number of answer literals was enough, one less is enough now.
  ghost predicate Drops(asserted: seq<Formula>, aux: seq<Formula>, asserted': seq<Formula>, aux': seq<Formula>) {
    forall cost: nat :: Attains(asserted, aux, cost) ==> cost >= 1 && Attains(asserted', aux', cost - 1)
  }

  lemma RoundLaw(asserted: seq<Formula>, soft: seq<Formula>, aux: seq<Formula>, next: nat, core: seq<Formula>,
                 asserted': seq<Formula>, bound: nat)
    requires Linked(asserted, soft, aux, next) && CoreOf(core, asserted, aux) && bound >= 1
    requires var r := Relax(soft, aux, core, next);
      asserted + r.clauses <= asserted' && Encodes(asserted'[|asserted + r.clauses|..], r.block, bound)
    ensures var r := Relax(soft, aux, core, next);
      && Linked(asserted', r.soft, r.aux, r.next)
      && Drops(asserted, aux, asserted', r.aux)
      && (bound == 1 ==> Lowered(asserted, soft, aux, asserted', r.soft, r.aux))
  {
    var r := Relax(soft, aux, core, next);
    var added := asserted'[|asserted + r.clauses|..];
    assert asserted' == asserted + r.clauses + added;
    RelaxLinked(asserted, soft, aux, next, core, added, bound);
    forall cost: nat | Attains(asserted, aux, cost)
      ensures cost >= 1 && Attains(asserted', r.aux, cost - 1)
    {
      var a :| Holds(asserted, a) && CountTrue(aux, a) == cost;
      var b := StepAttained(asserted, soft, aux, next, core, added, bound, a);
    }
    forall cost: nat | bound == 1 && Minimum(asserted, soft, aux, cost)
      ensures cost >= 1 && Minimum(asserted', r.soft, r.aux, cost - 1)
    {
      StepLaw(asserted, soft, aux, next, core, added, cost);
    }
  }

  lemma CoreSize(core: seq<Formula>, aux: seq<Formula>)
    requires Distinct(core)
    requires forall f :: f in core ==> exists i :: 0 <= i < |aux| && f == Not(aux[i])
    ensures |core| <= |aux|
  {
    DistinctSize(core);
    NegatedSize(aux);
    assert ToSet(core) <= Negated(aux);
    SubsetSize(ToSet(core), Negated(aux));
  }

  lemma {:induction false} NegatedSize(aux: seq<Formula>)
    ensures |Negated(aux)| <= |aux|
  {
    if aux != [] {
      var last := |aux| - 1;
      NegatedSize(aux[..last]);
      NegatedSnoc(aux[..last], aux[last]);
      assert aux == aux[..last] + [aux[last]];
    }
  }

  lemma AllAnswersOff(asserted: seq<Formula>, soft: seq<Formula>, aux: seq<Formula>, next: nat,
                      assumptions: seq<Formula>, m: Assignment)
    requires Linked(asserted, soft, aux, next)
    requires |assumptions| == |aux| && forall i :: 0 <= i < |aux| ==> assumptions[i] == Not(aux[i])
    requires Holds(asserted, m) && Holds(assumptions, m)
    ensures CountFalse(soft, m) == 0 && CountTrue(aux, m) == 0
  {
    LinkedCover(asserted, soft, aux, next, m);
    forall f | f in aux
      ensures !Eval(f, m)
    {
      var i :| 0 <= i < |aux| && aux[i] == f;
      assert Eval(assumptions[i], m);
    }
    CountTrueNone(aux, m);
  }

  lemma StartMinimum(hard: seq<Formula>, soft: seq<Formula>, next: nat, cost: nat)
    requires AllBelow(hard, next) && AllBelow(soft, next)
    requires IsOptimum(hard, soft, cost)
    ensures var aux := FreshVars(next, |soft|);
      var asserted := hard + SoftClauses(soft, aux);
      Linked(asserted, soft, aux, next + |soft|) && Minimum(asserted, soft, aux, cost)
  {
    var aux := FreshVars(next, |soft|);
    var clauses := SoftClauses(soft, aux);
    var next' := next + |soft|;
    FreshVarsBelow(next, |soft|);
    AllBelowMonotone(hard, next, next');
    AllBelowMonotone(soft, next, next');
    SoftClausesBelow(soft, aux, next');
    forall i | 0 <= i < |soft|
      ensures Or(soft[i], aux[i]) in hard + clauses
    {
      assert clauses[i] == Or(soft[i], aux[i]);
    }
    forall a | Holds(hard + clauses, a)
      ensures CountFalse(soft, a) >= cost
    {
      HoldsAppend(hard, clauses, a);
    }
    var a :| Holds(hard, a) && CountFalse(soft, a) == cost;
    var b := AnswerExtension(hard, soft, next, a);
    HoldsAppend(hard, clauses, b);
  }
}
