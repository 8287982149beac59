/**
 Max-resolution and its dual: replacing a core, or a correction set, by definitions that are satisfied
 one less often, or just as often.
 */
module MaxResolution {
  import opened Formulas
  import opened Lists
  import opened Oracle

  // Costs over sets of soft constraints

  function Falsified(fs: set<Formula>, a: Assignment): set<Formula> {
    set f | f in fs && !Eval(f, a)
  }

  function Cost(fs: set<Formula>, a: Assignment): nat {
    |Falsified(fs, a)|
  }

  lemma CostUnion(x: set<Formula>, y: set<Formula>, a: Assignment)
    requires x !! y
    ensures Cost(x + y, a) == Cost(x, a) + Cost(y, a)
  {
    assert Falsified(x + y, a) == Falsified(x, a) + Falsified(y, a);
  }

  lemma CostRemove(fs: set<Formula>, part: set<Formula>, a: Assignment)
    requires part <= fs
    ensures Cost(fs, a) == Cost(fs - part, a) + Cost(part, a)
  {
    CostUnion(fs - part, part, a);
    assert fs == (fs - part) + part;
  }

  lemma {:induction false} CostOfList(xs: seq<Formula>, a: Assignment)
    requires Distinct(xs)
    ensures Cost(ToSet(xs), a) == CountFalse(xs, a)
  {
    if xs != [] {
      var last := |xs| - 1;
      var init, f := xs[..last], xs[last];
      CostOfList(init, a);
      assert ToSet(xs) == ToSet(init) + {f} by { assert xs == init + [f]; }
      CostUnion(ToSet(init), {f}, a);
      assert Falsified({f}, a) == if Eval(f, a) then {} else {f};
    }
  }

  ghost predicate SetBelow(fs: set<Formula>, next: nat) {
    forall f :: f in fs ==> Below(f, next)
  }

  lemma CostBelow(fs: set<Formula>, next: nat, a: Assignment, b: Assignment)
    requires SetBelow(fs, next) && SameBelow(next, a, b)
    ensures Cost(fs, a) == Cost(fs, b)
  {
    forall f | f in fs
      ensures Eval(f, a) == Eval(f, b)
    {
      assert Below(f, next);
    }
    assert Falsified(fs, a) == Falsified(fs, b);
  }

  // The rewriting of one set, for cores (conjunctive prefixes) and, dually, for correction sets (disjunctive ones)

  datatype Mode = Core | Correction

  function Start(mode: Mode): Formula {
    if mode.Core? then True else False
  }

  function Joined(mode: Mode, f: Formula, g: Formula): Formula {
    if mode.Core? then And(f, g) else Or(f, g)
  }

  function Split(mode: Mode, f: Formula, g: Formula): Formula {
    if mode.Core? then Or(f, g) else And(f, g)
  }

  // After i rounds: the name of the current prefix, the new soft constraints, their definitions and the counter.
  datatype Rewriting = Rewriting(prefix: Formula, names: seq<Formula>, defs: seq<Formula>, next: nat)

  function Rewrite(mode: Mode, xs: seq<Formula>, next: nat, i: nat): Rewriting
    requires i < |xs| || i == 0
  {
    if i == 0 then Rewriting(Start(mode), [], [], next)
    else
      var r := Rewrite(mode, xs, next, i - 1);
      var p, q := Var(Const(r.next)), Var(Const(r.next + 1));
      Rewriting(p, r.names + [q],
        r.defs + [Iff(p, Joined(mode, xs[i - 1], r.prefix)), Iff(q, Split(mode, p, xs[i]))], r.next + 2)
  }

  lemma HoldsTwo(fs: seq<Formula>, f: Formula, g: Formula, a: Assignment)
    ensures Holds(fs + [f, g], a) <==> Holds(fs, a) && Eval(f, a) && Eval(g, a)
  {
    HoldsSnoc(fs, f, a);
    HoldsSnoc(fs + [f], g, a);
    assert fs + [f, g] == fs + [f] + [g];
  }

  lemma EvalJoined(mode: Mode, f: Formula, g: Formula, a: Assignment)
    ensures Eval(Joined(mode, f, g), a) == if mode.Core? then Eval(f, a) && Eval(g, a) else Eval(f, a) || Eval(g, a)
    ensures Eval(Split(mode, f, g), a) == if mode.Core? then Eval(f, a) || Eval(g, a) else Eval(f, a) && Eval(g, a)
  {
  }

  function Pred(n: nat): nat {
    if n == 0 then 0 else n - 1
  }

  // How prefix and new soft constraints relate to the members seen: those before the last one, and the last one.
  ghost predicate CostLaw(mode: Mode, before: seq<Formula>, last: Formula, prefix: Formula, names: seq<Formula>,
                          a: Assignment) {
    && |names| == |before|
    && (mode.Core? ==>
          && (Eval(prefix, a) <==> CountFalse(before, a) == 0)
          && CountFalse(names, a) == Pred(CountFalse(before + [last], a)))
    && (mode.Correction? ==>
          && (Eval(prefix, a) <==> CountTrue(before, a) > 0)
          && CountTrue(names, a) == Pred(CountTrue(before + [last], a)))
  }

  lemma CostLawStart(mode: Mode, x: Formula, a: Assignment)
    ensures CostLaw(mode, [], x, Start(mode), [], a)
  {
    CountTrueSnoc([], x, a);
  }

  lemma CostLawStep(mode: Mode, before: seq<Formula>, x: Formula, y: Formula, prefix: Formula, names: seq<Formula>,
                    p: Formula, q: Formula, a: Assignment)
    requires CostLaw(mode, before, x, prefix, names, a)
    requires Eval(Iff(p, Joined(mode, x, prefix)), a)
    requires Eval(Iff(q, Split(mode, p, y)), a)
    ensures CostLaw(mode, before + [x], y, p, names + [q], a)
  {
    CountTrueSnoc(before, x, a);
    CountTrueSnoc(before + [x], y, a);
    CountTrueSnoc(names, q, a);
    EvalJoined(mode, x, prefix, a);
    EvalJoined(mode, p, y, a);
    assert Eval(p, a) == Eval(Joined(mode, x, prefix), a);
    assert Eval(q, a) == Eval(Split(mode, p, y), a);
  }

  /**
   The cost laws: under the definitions, the new soft constraints of a core are falsified once less often than the
   members seen so far, and those of a correction set are true once less often.
   */
  lemma {:induction false} RewriteCost(mode: Mode, xs: seq<Formula>, next: nat, i: nat, a: Assignment)
    requires i < |xs|
    requires Holds(Rewrite(mode, xs, next, i).defs, a)
    ensures var r := Rewrite(mode, xs, next, i);
      CostLaw(mode, xs[..i], xs[i], r.prefix, r.names, a)
  {
    var before := xs[..i];
    if i == 0 {
      assert before == [];
      CostLawStart(mode, xs[0], a);
    } else {
      var r := Rewrite(mode, xs, next, i - 1);
      var p, q := Var(Const(r.next)), Var(Const(r.next + 1));
      var d, e := Iff(p, Joined(mode, xs[i - 1], r.prefix)), Iff(q, Split(mode, p, xs[i]));
      assert Rewrite(mode, xs, next, i) == Rewriting(p, r.names + [q], r.defs + [d, e], r.next + 2);
      HoldsTwo(r.defs, d, e, a);
      RewriteCost(mode, xs, next, i - 1, a);
      assert before == xs[..i - 1] + [xs[i - 1]];
      CostLawStep(mode, xs[..i - 1], xs[i - 1], xs[i], r.prefix, r.names, p, q, a);
    }
  }

  lemma BelowIff(f: Formula, g: Formula, next: nat)
    requires Below(f, next) && Below(g, next)
    ensures Below(Iff(f, g), next)
  {
  }

  lemma BelowJoined(mode: Mode, f: Formula, g: Formula, next: nat)
    requires Below(f, next) && Below(g, next)
    ensures Below(Joined(mode, f, g), next) && Below(Split(mode, f, g), next)
  {
  }

  // The new names are fresh and distinct.
  ghost predicate FreshNames(names: seq<Formula>, from: nat, to: nat) {
    && Distinct(names)
    && forall f :: f in names ==> f.Var? && f.symbol.Const? && from <= f.symbol.id < to
  }

  // Everything the rewriting leaves behind is known below its counter.
  ghost predicate RewritingBelow(from: nat, r: Rewriting) {
    && from <= r.next
    && Below(r.prefix, r.next) && AllBelow(r.defs, r.next)
    && FreshNames(r.names, from, r.next)
  }

  lemma {:induction false} RewriteBelow(mode: Mode, xs: seq<Formula>, next: nat, i: nat)
    requires i < |xs| && AllBelow(xs, next)
    ensures RewritingBelow(next, Rewrite(mode, xs, next, i))
  {
    if i == 0 {
      BelowFromSymbols(Start(mode), next);
    } else {
      RewriteBelow(mode, xs, next, i - 1);
      RewriteStepBelow(mode, xs[i - 1], xs[i], next, Rewrite(mode, xs, next, i - 1), Rewrite(mode, xs, next, i));
    }
  }

  lemma RewriteStepBelow(mode: Mode, x: Formula, y: Formula, from: nat, r: Rewriting, r': Rewriting)
    requires Below(x, from) && Below(y, from) && RewritingBelow(from, r)
    requires var p, q := Var(Const(r.next)), Var(Const(r.next + 1));
      r' == Rewriting(p, r.names + [q], r.defs + [Iff(p, Joined(mode, x, r.prefix)), Iff(q, Split(mode, p, y))],
                      r.next + 2)
    ensures RewritingBelow(from, r')
  {
    BelowMonotone(x, from, r.next);
    BelowMonotone(y, from, r.next);
    DefinitionsBelow(mode, x, y, r.prefix, r.next);
    AllBelowMonotone(r.defs, r.next, r.next + 2);
    FreshNamesSnoc(r.names, from, r.next);
  }

  lemma FreshNamesSnoc(names: seq<Formula>, from: nat, to: nat)
    requires FreshNames(names, from, to) && from <= to
    ensures FreshNames(names + [Var(Const(to + 1))], from, to + 2)
  {
    assert forall i :: 0 <= i < |names| ==> names[i] in names;
  }

  lemma DefinitionsBelow(mode: Mode, x: Formula, y: Formula, prefix: Formula, n: nat)
    requires Below(x, n) && Below(y, n) && Below(prefix, n)
    ensures var p, q := Var(Const(n)), Var(Const(n + 1));
      Below(p, n + 2) && Below(Iff(p, Joined(mode, x, prefix)), n + 2) && Below(Iff(q, Split(mode, p, y)), n + 2)
  {
    var p, q := Var(Const(n)), Var(Const(n + 1));
    BelowFromSymbols(p, n + 2);
    BelowFromSymbols(q, n + 2);
    BelowMonotone(x, n, n + 2);
    BelowMonotone(y, n, n + 2);
    BelowMonotone(prefix, n, n + 2);
    BelowJoined(mode, x, prefix, n + 2);
    BelowJoined(mode, p, y, n + 2);
    BelowIff(p, Joined(mode, x, prefix), n + 2);
    BelowIff(q, Split(mode, p, y), n + 2);
  }

  // A fresh name can be given the value its definition asks for.
  lemma ExtendOne(def: Formula, n: nat, c: Assignment) returns (b: Assignment)
    requires Below(def, n) && OnlyBelow(c, n)
    ensures SameBelow(n, c, b) && OnlyBelow(b, n + 1)
    ensures Eval(Iff(Var(Const(n)), def), b)
  {
    b := if Eval(def, c) then c + {Const(n)} else c;
    assert SameBelow(n, c, b);
    assert Eval(Var(Const(n)), b) == Eval(def, c);
  }

  lemma ExtendTwo(mode: Mode, x: Formula, y: Formula, prefix: Formula, n: nat, c: Assignment) returns (b: Assignment)
    requires Below(x, n) && Below(y, n) && Below(prefix, n)
    requires OnlyBelow(c, n)
    ensures SameBelow(n, c, b) && OnlyBelow(b, n + 2)
    ensures Eval(Iff(Var(Const(n)), Joined(mode, x, prefix)), b)
    ensures Eval(Iff(Var(Const(n + 1)), Split(mode, Var(Const(n)), y)), b)
  {
    var p, first := Var(Const(n)), Joined(mode, x, prefix);
    BelowJoined(mode, x, prefix, n);
    var d := ExtendOne(first, n, c);
    BelowFromSymbols(p, n + 1);
    BelowMonotone(y, n, n + 1);
    BelowMonotone(first, n, n + 1);
    BelowJoined(mode, p, y, n + 1);
    b := ExtendOne(Split(mode, p, y), n + 1, d);
    BelowIff(p, first, n + 1);
    assert Eval(Iff(p, first), d) == Eval(Iff(p, first), b);
  }

  // Definitions never exclude anything: some values of the new names satisfy them.
  lemma {:induction false} RewriteExtends(mode: Mode, xs: seq<Formula>, next: nat, i: nat, a: Assignment)
    returns (b: Assignment)
    requires i < |xs| && AllBelow(xs, next)
    ensures SameBelow(next, a, b) && Holds(Rewrite(mode, xs, next, i).defs, b)
    ensures OnlyBelow(b, Rewrite(mode, xs, next, i).next)
  {
    if i == 0 {
      b := Restrict(a, next);
    } else {
      var c := RewriteExtends(mode, xs, next, i - 1, a);
      RewriteBelow(mode, xs, next, i - 1);
      var r := Rewrite(mode, xs, next, i - 1);
      BelowMonotone(xs[i - 1], next, r.next);
      BelowMonotone(xs[i], next, r.next);
      b := ExtendTwo(mode, xs[i - 1], xs[i], r.prefix, r.next, c);
      HoldsBelow(r.defs, r.next, c, b);
      var p, q := Var(Const(r.next)), Var(Const(r.next + 1));
      HoldsTwo(r.defs, Iff(p, Joined(mode, xs[i - 1], r.prefix)), Iff(q, Split(mode, p, xs[i])), b);
    }
  }

  // The procedures

  method AddDef(ctx: Context, s: Solver, fml: Formula) returns (name: Formula)
    modifies ctx, s`asserted
    ensures name == Var(Const(old(ctx.next))) && ctx.next == old(ctx.next) + 1
    ensures s.asserted == old(s.asserted) + [Iff(name, fml)]
  {
    name := ctx.MkFresh();
    s.Assert(Iff(name, fml));
  }

  // One turn of the rewriting loops: the next prefix and the next soft constraint get a name each.
  method AddTwoDefs(mode: Mode, ctx: Context, s: Solver, x: Formula, prefix: Formula, y: Formula,
                    ghost before: seq<Formula>, ghost r: Rewriting) returns (prefix': Formula, name: Formula)
    requires prefix == r.prefix && ctx.next == r.next && s.asserted == before + r.defs
    modifies ctx, s`asserted
    ensures prefix' == Var(Const(r.next)) && name == Var(Const(r.next + 1)) && ctx.next == r.next + 2
    ensures s.asserted
            == before + (r.defs + [Iff(prefix', Joined(mode, x, r.prefix)), Iff(name, Split(mode, prefix', y))])
  {
    prefix' := AddDef(ctx, s, Joined(mode, x, prefix));
    name := AddDef(ctx, s, Split(mode, prefix', y));
  }

  lemma AddName(rest: set<Formula>, names: seq<Formula>, name: Formula)
    ensures rest + ToSet(names) + {name} == rest + ToSet(names + [name])
  {
    ToSetSnoc(names, name);
  }

  lemma RewriteNext(mode: Mode, xs: seq<Formula>, next: nat, i: nat)
    requires i + 1 < |xs|
    ensures var r := Rewrite(mode, xs, next, i);
      var p, q := Var(Const(r.next)), Var(Const(r.next + 1));
      Rewrite(mode, xs, next, i + 1) ==
      Rewriting(p, r.names + [q], r.defs + [Iff(p, Joined(mode, xs[i], r.prefix)), Iff(q, Split(mode, p, xs[i + 1]))],
                r.next + 2)
  {
  }

  method RelaxCore(ctx: Context, s: Solver, core: seq<Formula>, softSet: set<Formula>) returns (softSet': set<Formula>)
    modifies ctx, s`asserted
    ensures core == [] ==> softSet' == softSet && s.asserted == old(s.asserted) && ctx.next == old(ctx.next)
    ensures core != [] ==>
      var r := Rewrite(Core, core, old(ctx.next), |core| - 1);
      && softSet' == softSet - ToSet(core) + ToSet(r.names)
      && s.asserted == old(s.asserted) + r.defs && ctx.next == r.next
  {
    softSet' := softSet;
    if |core| == 0 {
      return;
    }
    var prefix := True;
    softSet' := softSet' - set f | f in core;
    assert ToSet<Formula>([]) == {};
    var i := 0;
    while i < |core| - 1
      invariant 0 <= i < |core|
      invariant var r := Rewrite(Core, core, old(ctx.next), i);
        && prefix == r.prefix && softSet' == softSet - ToSet(core) + ToSet(r.names)
        && s.asserted == old(s.asserted) + r.defs && ctx.next == r.next
    {
      ghost var r := Rewrite(Core, core, old(ctx.next), i);
      var name;
      prefix, name := AddTwoDefs(Core, ctx, s, core[i], prefix, core[i + 1], old(s.asserted), r);
      softSet' := softSet' + {name};
      AddName(softSet - ToSet(core), r.names, name);
      RewriteNext(Core, core, old(ctx.next), i);
      i := i + 1;
    }
  }

  method RestrictCs(ctx: Context, s: Solver, cs: seq<Formula>, softSet: set<Formula>) returns (softSet': set<Formula>)
    modifies ctx, s`asserted
    ensures cs == [] ==> softSet' == softSet && s.asserted == old(s.asserted) && ctx.next == old(ctx.next)
    ensures cs != [] ==>
      var r := Rewrite(Correction, cs, old(ctx.next), |cs| - 1);
      && softSet' == softSet - ToSet(cs) + ToSet(r.names)
      && s.asserted == old(s.asserted) + r.defs && ctx.next == r.next
  {
    softSet' := softSet;
    if |cs| == 0 {
      return;
    }
    var prefix := False;
    softSet' := softSet' - set f | f in cs;
    assert ToSet<Formula>([]) == {};
    var i := 0;
    while i < |cs| - 1
      invariant 0 <= i < |cs|
      invariant var r := Rewrite(Correction, cs, old(ctx.next), i);
        && prefix == r.prefix && softSet' == softSet - ToSet(cs) + ToSet(r.names)
        && s.asserted == old(s.asserted) + r.defs && ctx.next == r.next
    {
      ghost var r := Rewrite(Correction, cs, old(ctx.next), i);
      var name;
      prefix, name := AddTwoDefs(Correction, ctx, s, cs[i], prefix, cs[i + 1], old(s.asserted), r);
      softSet' := softSet' + {name};
      AddName(softSet - ToSet(cs), r.names, name);
      RewriteNext(Correction, cs, old(ctx.next), i);
      i := i + 1;
    }
  }

  // The laws over a whole set of soft constraints

  lemma NamesOutside(names: seq<Formula>, fs: set<Formula>, from: nat, to: nat)
    requires FreshNames(names, from, to) && SetBelow(fs, from)
    ensures ToSet(names) !! fs
  {
    forall f | f in names
      ensures f !in fs
    {
      assert SameBelow(from, {}, {f.symbol});
      assert !Below(f, from);
    }
  }

  /**
   Replacing a core by its rewriting lowers the cost by exactly one wherever a member is falsified; replacing a
   correction set keeps the cost wherever a member holds.
   */
  lemma RewriteSetCost(mode: Mode, fs: set<Formula>, xs: seq<Formula>, next: nat, a: Assignment)
    requires xs != [] && Distinct(xs) && ToSet(xs) <= fs && SetBelow(fs, next)
    requires Holds(Rewrite(mode, xs, next, |xs| - 1).defs, a)
    requires mode.Core? ==> !HoldsAll(ToSet(xs), a)
    requires mode.Correction? ==> exists f :: f in xs && Eval(f, a)
    ensures var r := Rewrite(mode, xs, next, |xs| - 1);
      var fs' := fs - ToSet(xs) + ToSet(r.names);
      Cost(fs, a) == Cost(fs', a) + if mode.Core? then 1 else 0
  {
    var r := Rewrite(mode, xs, next, |xs| - 1);
    assert AllBelow(xs, next) by { assert forall f :: f in xs ==> f in ToSet(xs); }
    RewriteBelow(mode, xs, next, |xs| - 1);
    NamesOutside(r.names, fs, next, r.next);
    CostRemove(fs, ToSet(xs), a);
    CostUnion(fs - ToSet(xs), ToSet(r.names), a);
    CostOfList(xs, a);
    CostOfList(r.names, a);
    RewriteListCost(mode, xs, next, a, r);
  }

  // The same for the members of the rewritten list alone.
  lemma RewriteListCost(mode: Mode, xs: seq<Formula>, next: nat, a: Assignment, r: Rewriting)
    requires xs != [] && r == Rewrite(mode, xs, next, |xs| - 1) && Holds(r.defs, a)
    requires mode.Core? ==> !HoldsAll(ToSet(xs), a)
    requires mode.Correction? ==> exists f :: f in xs && Eval(f, a)
    ensures CountFalse(xs, a) == CountFalse(r.names, a) + if mode.Core? then 1 else 0
  {
    RewriteCost(mode, xs, next, |xs| - 1, a);
    assert xs[..|xs| - 1] + [xs[|xs| - 1]] == xs;
    CountTrueFull(xs, a);
    CountTrueNone(xs, a);
  }

  lemma RewriteSetBelow(mode: Mode, fs: set<Formula>, xs: seq<Formula>, next: nat)
    requires xs != [] && ToSet(xs) <= fs && SetBelow(fs, next)
    ensures var r := Rewrite(mode, xs, next, |xs| - 1);
      next <= r.next && SetBelow(fs - ToSet(xs) + ToSet(r.names), r.next) && AllBelow(r.defs, r.next)
  {
    var r := Rewrite(mode, xs, next, |xs| - 1);
    assert AllBelow(xs, next) by { assert forall f :: f in xs ==> f in ToSet(xs); }
    RewriteBelow(mode, xs, next, |xs| - 1);
    forall f | f in fs - ToSet(xs) + ToSet(r.names)
      ensures Below(f, r.next)
    {
      if f in fs {
        BelowMonotone(f, next, r.next);
      } else {
        assert f in r.names;
        BelowFromSymbols(f, r.next);
      }
    }
  }
}
