/** Propositional formulas over named Boolean constants, and their truth under total assignments. */
module Formulas {

  // A Boolean constant: one drawn from the fresh-name counter, or a cell of a two-dimensional grid of names.
  datatype Symbol = Const(id: nat) | Cell(row: nat, col: nat)

  // A total assignment, given by the symbols it makes true; every other symbol is false.
  type Assignment = set<Symbol>

  datatype Formula =
    | True
    | False
    | Var(symbol: Symbol)
    | Not(arg: Formula)
    | And(left: Formula, right: Formula)
    | Or(left: Formula, right: Formula)
    | Xor(left: Formula, right: Formula)
    | Iff(left: Formula, right: Formula)

  predicate Eval(f: Formula, a: Assignment) {
    match f
    case True => true
    case False => false
    case Var(s) => s in a
    case Not(g) => !Eval(g, a)
    case And(g, h) => Eval(g, a) && Eval(h, a)
    case Or(g, h) => Eval(g, a) || Eval(h, a)
    case Xor(g, h) => Eval(g, a) != Eval(h, a)
    case Iff(g, h) => Eval(g, a) == Eval(h, a)
  }

  function Symbols(f: Formula): set<Symbol> {
    match f
    case True => {}
    case False => {}
    case Var(s) => {s}
    case Not(g) => Symbols(g)
    case And(g, h) => Symbols(g) + Symbols(h)
    case Or(g, h) => Symbols(g) + Symbols(h)
    case Xor(g, h) => Symbols(g) + Symbols(h)
    case Iff(g, h) => Symbols(g) + Symbols(h)
  }

  ghost predicate AgreeOn(syms: set<Symbol>, a: Assignment, b: Assignment) {
    forall s :: s in syms ==> (s in a <==> s in b)
  }

  /** The truth of a formula depends only on the symbols that occur in it. */
  lemma {:induction false} EvalLocal(f: Formula, a: Assignment, b: Assignment)
    requires AgreeOn(Symbols(f), a, b)
    ensures Eval(f, a) == Eval(f, b)
  {
    match f
    case True =>
    case False =>
    case Var(_) =>
    case Not(g) => EvalLocal(g, a, b);
    case And(g, h) => EvalLocal(g, a, b); EvalLocal(h, a, b);
    case Or(g, h) => EvalLocal(g, a, b); EvalLocal(h, a, b);
    case Xor(g, h) => EvalLocal(g, a, b); EvalLocal(h, a, b);
    case Iff(g, h) => EvalLocal(g, a, b); EvalLocal(h, a, b);
  }

  // Collections of formulas

  ghost predicate Holds(fs: seq<Formula>, a: Assignment) {
    forall f :: f in fs ==> Eval(f, a)
  }

  ghost predicate HoldsAll(fs: set<Formula>, a: Assignment) {
    forall f :: f in fs ==> Eval(f, a)
  }

  ghost predicate Satisfiable(fs: seq<Formula>) {
    exists a :: Holds(fs, a)
  }

  lemma HoldsAppend(fs: seq<Formula>, gs: seq<Formula>, a: Assignment)
    ensures Holds(fs + gs, a) <==> Holds(fs, a) && Holds(gs, a)
  {
    assert forall f :: f in fs + gs <==> f in fs || f in gs;
  }

  lemma HoldsSnoc(fs: seq<Formula>, f: Formula, a: Assignment)
    ensures Holds(fs + [f], a) <==> Holds(fs, a) && Eval(f, a)
  {
    var all := fs + [f];
    assert forall g :: g in all <==> g in fs || g == f;
  }

  function OrAll(fs: seq<Formula>): Formula {
    if fs == [] then False else Or(fs[0], OrAll(fs[1..]))
  }

  function AndAll(fs: seq<Formula>): Formula {
    if fs == [] then True else And(fs[0], AndAll(fs[1..]))
  }

  lemma {:induction false} EvalOrAll(fs: seq<Formula>, a: Assignment)
    ensures Eval(OrAll(fs), a) <==> exists f :: f in fs && Eval(f, a)
  {
    if fs != [] {
      EvalOrAll(fs[1..], a);
      assert fs[0] in fs;
      assert forall f :: f in fs <==> f == fs[0] || f in fs[1..];
    }
  }

  lemma {:induction false} EvalAndAll(fs: seq<Formula>, a: Assignment)
    ensures Eval(AndAll(fs), a) <==> Holds(fs, a)
  {
    if fs != [] {
      EvalAndAll(fs[1..], a);
      assert forall f :: f in fs <==> f == fs[0] || f in fs[1..];
    }
  }

  // Counting

  function Bit(f: Formula, a: Assignment): (b: nat)
    ensures b <= 1
  {
    if Eval(f, a) then 1 else 0
  }

  function CountTrue(fs: seq<Formula>, a: Assignment): (c: nat)
    ensures c <= |fs|
  {
    if fs == [] then 0 else CountTrue(fs[..|fs| - 1], a) + Bit(fs[|fs| - 1], a)
  }

  function CountFalse(fs: seq<Formula>, a: Assignment): (c: nat) {
    |fs| - CountTrue(fs, a)
  }

  lemma CountTrueSnoc(fs: seq<Formula>, f: Formula, a: Assignment)
    ensures CountTrue(fs + [f], a) == CountTrue(fs, a) + Bit(f, a)
  {
    assert (fs + [f])[..|fs|] == fs;
  }

  lemma {:induction false} CountTrueFull(fs: seq<Formula>, a: Assignment)
    ensures CountTrue(fs, a) == |fs| <==> Holds(fs, a)
  {
    if fs != [] {
      var init := fs[..|fs| - 1];
      CountTrueFull(init, a);
      assert forall f :: f in fs <==> f in init || f == fs[|fs| - 1];
    }
  }

  lemma {:induction false} CountTrueNone(fs: seq<Formula>, a: Assignment)
    ensures CountTrue(fs, a) == 0 <==> forall f :: f in fs ==> !Eval(f, a)
  {
    if fs != [] {
      var init := fs[..|fs| - 1];
      CountTrueNone(init, a);
      assert fs[|fs| - 1] in fs;
      assert forall f :: f in fs <==> f in init || f == fs[|fs| - 1];
    }
  }

  // Two lists true at the same places have the same count.
  lemma {:induction false} CountTrueSame(fs: seq<Formula>, a: Assignment, gs: seq<Formula>, b: Assignment)
    requires |fs| == |gs|
    requires forall i :: 0 <= i < |fs| ==> Eval(fs[i], a) == Eval(gs[i], b)
    ensures CountTrue(fs, a) == CountTrue(gs, b)
  {
    if fs != [] {
      CountTrueSame(fs[..|fs| - 1], a, gs[..|gs| - 1], b);
    }
  }

  // Making more formulas true at the same places does not lower the count.
  lemma {:induction false} CountTrueMonotone(fs: seq<Formula>, a: Assignment, gs: seq<Formula>, b: Assignment)
    requires |fs| == |gs|
    requires forall i :: 0 <= i < |fs| && Eval(fs[i], a) ==> Eval(gs[i], b)
    ensures CountTrue(fs, a) <= CountTrue(gs, b)
  {
    if fs != [] {
      CountTrueMonotone(fs[..|fs| - 1], a, gs[..|gs| - 1], b);
    }
  }

  // Fresh names

  // `a` and `b` agree on every symbol that was not drawn from the counter at `next` or later.
  ghost predicate SameBelow(next: nat, a: Assignment, b: Assignment) {
    forall s: Symbol :: (s.Const? ==> s.id < next) ==> (s in a <==> s in b)
  }

  // The truth of `f` does not depend on the constants from `next` on.
  ghost predicate Below(f: Formula, next: nat) {
    forall a, b :: SameBelow(next, a, b) ==> Eval(f, a) == Eval(f, b)
  }

  ghost predicate AllBelow(fs: seq<Formula>, next: nat) {
    forall f :: f in fs ==> Below(f, next)
  }

  /** A formula that mentions no constant from `next` on does not depend on them. */
  lemma BelowFromSymbols(f: Formula, next: nat)
    requires forall s :: s in Symbols(f) && s.Const? ==> s.id < next
    ensures Below(f, next)
  {
    forall a, b | SameBelow(next, a, b)
      ensures Eval(f, a) == Eval(f, b)
    {
      EvalLocal(f, a, b);
    }
  }

  lemma BelowMonotone(f: Formula, next: nat, next': nat)
    requires Below(f, next) && next <= next'
    ensures Below(f, next')
  {
    forall a, b | SameBelow(next', a, b)
      ensures Eval(f, a) == Eval(f, b)
    {
      assert SameBelow(next, a, b);
    }
  }

  lemma AllBelowMonotone(fs: seq<Formula>, next: nat, next': nat)
    requires AllBelow(fs, next) && next <= next'
    ensures AllBelow(fs, next')
  {
    forall f | f in fs
      ensures Below(f, next')
    {
      BelowMonotone(f, next, next');
    }
  }

  lemma HoldsBelow(fs: seq<Formula>, next: nat, a: Assignment, b: Assignment)
    requires AllBelow(fs, next) && SameBelow(next, a, b)
    ensures Holds(fs, a) <==> Holds(fs, b)
  {
    forall f | f in fs
      ensures Eval(f, a) == Eval(f, b)
    {
      assert Below(f, next);
    }
  }

  lemma CountTrueBelow(fs: seq<Formula>, next: nat, a: Assignment, b: Assignment)
    requires AllBelow(fs, next) && SameBelow(next, a, b)
    ensures CountTrue(fs, a) == CountTrue(fs, b)
  {
    forall i | 0 <= i < |fs|
      ensures Eval(fs[i], a) == Eval(fs[i], b)
    {
      assert Below(fs[i], next);
    }
    CountTrueSame(fs, a, fs, b);
  }

  ghost predicate OnlyBelow(a: Assignment, next: nat) {
    forall s :: s in a && s.Const? ==> s.id < next
  }

  // Drops every counter-drawn constant from `next` on.
  function Restrict(a: Assignment, next: nat): (b: Assignment)
    ensures SameBelow(next, a, b)
    ensures OnlyBelow(b, next)
  {
    set s | s in a && (s.Const? ==> s.id < next)
  }
}
