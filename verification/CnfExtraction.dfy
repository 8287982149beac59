/** Extracting a conjunctive normal form by enumerating models of the negation. */
module CnfExtraction {
  import opened Lists

  // Terms: the Boolean connectives, equality, applications of anything else, and quantified formulas.  The two sides of
  // an equality are of one sort, which may be Boolean.
  datatype Term =
    | True
    | False
    | Not(arg: Term)
    | And(conjuncts: seq<Term>)
    | Or(disjuncts: seq<Term>)
    | Implies(premise: Term, conclusion: Term)
    | Eq(left: Term, right: Term)
    | Xor(left: Term, right: Term)
    | App(name: nat, isBool: bool, args: seq<Term>)
    | Quantified(id: nat, body: Term)

  predicate IsBool(t: Term) {
    t.App? ==> t.isBool
  }

  // An interpretation, given by what it makes true: applications, quantified formulas and non-Boolean equalities.
  type World = set<Term>

  predicate Eval(t: Term, w: World) {
    match t
    case True => true
    case False => false
    case Not(u) => !Eval(u, w)
    case And(ts) => forall u | u in ts :: Eval(u, w)
    case Or(ts) => exists u | u in ts :: Eval(u, w)
    case Implies(u, v) => Eval(u, w) ==> Eval(v, w)
    case Eq(u, v) => if IsBool(u) then Eval(u, w) == Eval(v, w) else t in w
    case Xor(u, v) => Eval(u, w) != Eval(v, w)
    case App(_, _, _) => t in w
    case Quantified(_, _) => t in w
  }

  function Children(t: Term): (cs: seq<Term>)
    ensures forall c :: c in cs ==> c < t
  {
    match t
    case True => []
    case False => []
    case Not(u) => [u]
    case And(ts) => ts
    case Or(ts) => ts
    case Implies(u, v) => [u, v]
    case Eq(u, v) => [u, v]
    case Xor(u, v) => [u, v]
    case App(_, _, ts) => ts
    case Quantified(_, u) => [u]
  }

  // A Boolean application that is no connective.  A quantified formula is not an application.
  predicate IsAtom(t: Term) {
    t.App? && t.isBool
  }

  datatype Outcome<T> = Value(value: T) | Raised

  // What the program's own test for atoms does.  Of an equality it asks whether the left side is Boolean by a method
  // that only sorts have, so that every equality, Boolean or not, raises an error.
  function AtomTest(t: Term): Outcome<bool> {
    if t.Eq? then Raised else Value(IsAtom(t))
  }

  predicate IsConnective(t: Term) {
    !t.App? && !t.Quantified? && (t.Eq? ==> IsBool(t.left))
  }

  // The subterms a truth value is looked up for.
  function Leaves(t: Term): set<Term> {
    if IsConnective(t) then set c, x | c in Children(t) && x in Leaves(c) :: x else {t}
  }

  ghost predicate AgreeOn(ts: set<Term>, w: World, v: World) {
    forall t :: t in ts ==> (t in w <==> t in v)
  }

  lemma {:induction false} EvalLocal(t: Term, w: World, v: World)
    requires AgreeOn(Leaves(t), w, v)
    ensures Eval(t, w) == Eval(t, v)
  {
    if IsConnective(t) {
      forall c | c in Children(t)
        ensures Eval(c, w) == Eval(c, v)
      {
        assert Leaves(c) <= Leaves(t);
        EvalLocal(c, w, v);
      }
      ConnectiveLocal(t, w, v);
    } else {
      assert t in Leaves(t);
    }
  }

  // A connective depends on its children only.
  lemma ConnectiveLocal(t: Term, w: World, v: World)
    requires IsConnective(t)
    requires forall c :: c in Children(t) ==> Eval(c, w) == Eval(c, v)
    ensures Eval(t, w) == Eval(t, v)
  {
    match t
    case True =>
    case False =>
    case Not(u) => assert u in Children(t);
    case And(ts) =>
    case Or(ts) =>
    case Implies(x, y) => assert x in Children(t) && y in Children(t);
    case Eq(x, y) => assert x in Children(t) && y in Children(t);
    case Xor(x, y) => assert x in Children(t) && y in Children(t);
  }

  // Atoms

  // All atoms among the subterms, also those inside other atoms.
  function AtomsOf(t: Term): set<Term> {
    (if IsAtom(t) then {t} else {}) + set c, x | c in Children(t) && x in AtomsOf(c) :: x
  }

  ghost function AtomsOfAll(ts: seq<Term>): set<Term> {
    set c, x | c in ts && x in AtomsOf(c) :: x
  }

  lemma AtomsOfSplit(t: Term)
    ensures AtomsOf(t) == (if IsAtom(t) then {t} else {}) + AtomsOfAll(Children(t))
  {
  }

  lemma AtomsOfAllSnoc(ts: seq<Term>, t: Term)
    ensures AtomsOfAll(ts + [t]) == AtomsOfAll(ts) + AtomsOf(t)
  {
    assert forall c :: c in ts + [t] <==> c in ts || c == t;
  }

  ghost predicate AllAtoms(ts: set<Term>) {
    forall t :: t in ts ==> IsAtom(t)
  }

  lemma {:induction false} AtomsAreAtoms(t: Term)
    ensures AllAtoms(AtomsOf(t))
  {
    forall c | c in Children(t)
      ensures AllAtoms(AtomsOf(c))
    {
      AtomsAreAtoms(c);
    }
  }

  // Equalities

  // The term and all its subterms, also those inside atoms and under quantifiers.
  function Subterms(t: Term): set<Term> {
    {t} + set c, x | c in Children(t) && x in Subterms(c) :: x
  }

  ghost predicate HasEquality(t: Term) {
    exists x :: x in Subterms(t) && x.Eq?
  }

  ghost predicate SomeEquality(ts: seq<Term>) {
    exists c :: c in ts && HasEquality(c)
  }

  lemma HasEqualitySplit(t: Term)
    ensures HasEquality(t) <==> t.Eq? || SomeEquality(Children(t))
  {
    if t.Eq? {
      assert t in Subterms(t);
    } else if SomeEquality(Children(t)) {
      var c :| c in Children(t) && HasEquality(c);
      var x :| x in Subterms(c) && x.Eq?;
      assert x in Subterms(t);
    }
  }

  lemma SomeEqualitySnoc(ts: seq<Term>, t: Term)
    ensures SomeEquality(ts + [t]) <==> SomeEquality(ts) || HasEquality(t)
  {
    assert forall c :: c in ts + [t] <==> c in ts || c == t;
  }

  /** Equalities raise an error wherever they stand: alone, negated, inside an atom, under a quantifier. */
  lemma EqualityRaises(a: Term, b: Term, p: nat, id: nat)
    ensures HasEquality(Eq(a, b)) && HasEquality(Not(Eq(a, b)))
    ensures HasEquality(App(p, true, [Eq(a, b)])) && HasEquality(Quantified(id, Eq(a, b)))
  {
    var e := Eq(a, b);
    HasEqualitySplit(e);
    forall t | Children(t) == [e]
      ensures HasEquality(t)
    {
      assert e in Children(t);
      HasEqualitySplit(t);
    }
  }

  // The traversal

  // What has been visited is collected and has no equality, except for the terms still being worked on.
  ghost predicate Collected(visited: set<Term>, open: set<Term>, atms: set<Term>) {
    forall v :: v in visited - open ==> AtomsOf(v) <= atms && !HasEquality(v)
  }

  lemma CollectedOpen(visited: set<Term>, open: set<Term>, atms: set<Term>, t: Term, atms': set<Term>)
    requires Collected(visited, open, atms) && atms <= atms'
    ensures Collected(visited + {t}, open + {t}, atms')
  {
    forall v | v in visited + {t} - (open + {t})
      ensures AtomsOf(v) <= atms' && !HasEquality(v)
    {
      assert v in visited - open;
    }
  }

  lemma CollectedClose(visited: set<Term>, open: set<Term>, atms: set<Term>, t: Term)
    requires Collected(visited, open + {t}, atms) && AtomsOf(t) <= atms && !HasEquality(t)
    ensures Collected(visited, open, atms)
  {
    forall v | v in visited - open
      ensures AtomsOf(v) <= atms && !HasEquality(v)
    {
      assert v == t || v in visited - (open + {t});
    }
  }

  // Collects the atoms of the first n children, in turn, up to the first error.
  method AtomsOfChildren(t: Term, n: nat, visited: set<Term>, atms: set<Term>, ghost open: set<Term>)
    returns (visited': set<Term>, atms': set<Term>, raised: bool)
    requires n <= |Children(t)|
    requires Collected(visited, open, atms) && forall v :: v in open ==> v == t || t < v
    ensures raised <==> SomeEquality(Children(t)[..n])
    ensures !raised ==> visited <= visited' && Collected(visited', open, atms')
    ensures !raised ==> atms' == atms + AtomsOfAll(Children(t)[..n])
    decreases t, n
  {
    visited', atms', raised := visited, atms, false;
    if n > 0 {
      var c := Children(t)[n - 1];
      TakeSnoc(Children(t), n);
      SomeEqualitySnoc(Children(t)[..n - 1], c);
      AtomsOfAllSnoc(Children(t)[..n - 1], c);
      visited', atms', raised := AtomsOfChildren(t, n - 1, visited', atms', open);
      if !raised {
        assert c in Children(t);
        visited', atms', raised := AtomsRec(c, visited', atms', open);
      }
    }
  }

  lemma TakeSnoc(ts: seq<Term>, n: nat)
    requires 0 < n <= |ts|
    ensures ts[..n] == ts[..n - 1] + [ts[n - 1]]
  {
  }

  lemma AppendSnoc(xs: seq<Term>, ys: seq<Term>, y: Term)
    ensures xs + ys + [y] == xs + (ys + [y])
  {
  }

  /**
   The recursive collection with its two sets.  It raises an error if and only if some subterm is an equality, and
   otherwise adds the atoms of the term and nothing else.
   */
  method AtomsRec(t: Term, visited: set<Term>, atms: set<Term>, ghost open: set<Term>)
    returns (visited': set<Term>, atms': set<Term>, raised: bool)
    requires Collected(visited, open, atms) && forall v :: v in open ==> t < v
    ensures raised <==> HasEquality(t)
    ensures !raised ==> visited <= visited' && Collected(visited', open, atms')
    ensures !raised ==> atms' == atms + AtomsOf(t)
    decreases t
  {
    visited', atms', raised := visited, atms, false;
    if t in visited {
      assert t in visited - open;
      return;
    }
    visited' := visited' + {t};
    HasEqualitySplit(t);
    var test := AtomTest(t);
    if test.Raised? {
      raised := true;
      return;
    }
    if test.value {
      atms' := atms' + {t};
    }
    CollectedOpen(visited, open, atms, t, atms');
    assert Children(t)[..|Children(t)|] == Children(t);
    visited', atms', raised := AtomsOfChildren(t, |Children(t)|, visited', atms', open + {t});
    if !raised {
      AtomsOfSplit(t);
      CollectedClose(visited', open, atms', t);
    }
  }

  method Atoms(fml: Term) returns (r: Outcome<set<Term>>)
    ensures r.Raised? <==> HasEquality(fml)
    ensures r.Value? ==> r.value == AtomsOf(fml)
  {
    var visited, atms, raised := AtomsRec(fml, {}, {}, {});
    r := if raised then Raised else Value(atms);
  }

  // In the formula's Boolean structure no truth value is looked up for anything but atoms.
  predicate NoQuantifiers(t: Term) {
    if IsConnective(t) then forall c | c in Children(t) :: NoQuantifiers(c) else IsAtom(t)
  }

  // The truth of the formula is determined by its atoms.
  ghost predicate Determined(theory: Term, fml: Term) {
    forall w, v :: Eval(theory, w) && Eval(theory, v) && AgreeOn(AtomsOf(fml), w, v) ==> Eval(fml, w) == Eval(fml, v)
  }

  lemma {:induction false} LeavesAreAtoms(t: Term)
    requires NoQuantifiers(t)
    ensures Leaves(t) <= AtomsOf(t)
  {
    if IsConnective(t) {
      forall c | c in Children(t)
        ensures Leaves(c) <= AtomsOf(c)
      {
        LeavesAreAtoms(c);
      }
    }
  }

  /** Without quantifiers in its Boolean structure a formula is determined by the collected atoms. */
  lemma QuantifierFreeDetermined(theory: Term, fml: Term)
    requires NoQuantifiers(fml)
    ensures Determined(theory, fml)
  {
    LeavesAreAtoms(fml);
    forall w, v | AgreeOn(AtomsOf(fml), w, v)
      ensures Eval(fml, w) == Eval(fml, v)
    {
      EvalLocal(fml, w, v);
    }
  }

  // The solver

  datatype Answer = Sat(model: World) | Unsat(core: seq<Term>)

  ghost predicate Holds(ts: seq<Term>, w: World) {
    forall t :: t in ts ==> Eval(t, w)
  }

  function LeavesOf(ts: set<Term>): set<Term> {
    set t, x | t in ts && x in Leaves(t) :: x
  }

  lemma HoldsCutDown(ts: set<Term>, w: World)
    requires forall t :: t in ts ==> Eval(t, w)
    ensures forall t :: t in ts ==> Eval(t, w * LeavesOf(ts))
  {
    forall t | t in ts
      ensures Eval(t, w * LeavesOf(ts))
    {
      assert Leaves(t) <= LeavesOf(ts);
      EvalLocal(t, w, w * LeavesOf(ts));
    }
  }

  class Solver {
    var asserted: seq<Term>
    // what the solver has answered so far
    ghost var answers: seq<Answer>

    constructor (theory: Term)
      ensures asserted == [theory]
    {
      asserted := [theory];
    }

    method Add(t: Term)
      modifies this`asserted
      ensures asserted == old(asserted) + [t]
    {
      asserted := asserted + [t];
    }

    method Check(assumptions: seq<Term>) returns (answer: Answer)
      modifies this`answers
      ensures answers == old(answers) + [answer]
      ensures answer.Sat? ==> Holds(asserted, answer.model) && Holds(assumptions, answer.model)
      ensures answer.Unsat? ==> forall t :: t in answer.core ==> t in assumptions
      ensures answer.Unsat? ==> forall w :: Holds(asserted, w) ==> !Holds(answer.core, w)
    {
      var goal := ToSet(asserted + assumptions);
      var leaves := LeavesOf(goal);
      if m: World :| m <= leaves && forall t | t in goal :: Eval(t, m) {
        assert forall t :: t in asserted || t in assumptions ==> t in goal;
        answer := Sat(m);
      } else {
        answer := Unsat(assumptions);
        forall w | Holds(asserted, w)
          ensures !Holds(assumptions, w)
        {
          assert w * leaves <= leaves;
          if Holds(assumptions, w) {
            HoldsCutDown(goal, w);
            assert false;
          }
        }
      }
      answers := answers + [answer];
    }
  }

  // Clauses

  function Atom2Literal(m: World, a: Term): Term {
    if Eval(a, m) then a else Not(a)
  }

  function MkNot(t: Term): Term {
    if t.Not? then t.arg else Not(t)
  }

  lemma EvalMkNot(t: Term, w: World)
    ensures Eval(MkNot(t), w) == !Eval(t, w)
  {
  }

  function Negations(core: seq<Term>): seq<Term> {
    seq(|core|, i requires 0 <= i < |core| => MkNot(core[i]))
  }

  function Literals(m: World, atms: seq<Term>): seq<Term> {
    seq(|atms|, i requires 0 <= i < |atms| => Atom2Literal(m, atms[i]))
  }

  // A clause holds exactly when some member of the core it negates fails.
  lemma EvalNegations(core: seq<Term>, w: World)
    ensures Eval(Or(Negations(core)), w) <==> !Holds(core, w)
  {
    var ns := Negations(core);
    forall i | 0 <= i < |core|
      ensures ns[i] in ns && Eval(ns[i], w) == !Eval(core[i], w)
    {
      EvalMkNot(core[i], w);
    }
    if Eval(Or(ns), w) {
      var n :| n in ns && Eval(n, w);
      var i :| 0 <= i < |ns| && ns[i] == n;
      assert core[i] in core;
    }
    if !Holds(core, w) {
      var t :| t in core && !Eval(t, w);
      var i :| 0 <= i < |core| && core[i] == t;
      assert ns[i] in ns;
    }
  }

  lemma LiteralsHold(m: World, atms: seq<Term>, w: World)
    requires AllAtoms(ToSet(atms))
    ensures Holds(Literals(m, atms), w) <==> AgreeOn(ToSet(atms), m, w)
  {
    var lits := Literals(m, atms);
    forall i | 0 <= i < |atms|
      ensures Eval(lits[i], w) <==> (atms[i] in m <==> atms[i] in w)
    {
      assert atms[i] in ToSet(atms);
    }
    if Holds(lits, w) {
      forall t | t in ToSet(atms)
        ensures t in m <==> t in w
      {
        var i :| 0 <= i < |atms| && atms[i] == t;
        assert lits[i] in lits;
      }
    }
  }

  // The interpretations of the atoms that no clause has excluded yet.
  ghost function Remaining(atms: set<Term>, clauses: seq<Term>): set<World> {
    set w | w <= atms && Holds(clauses, w)
  }

  // An atom or the negation of one.
  ghost predicate IsLiteral(atms: set<Term>, t: Term) {
    t in atms || (t.Not? && t.arg in atms)
  }

  // A disjunction of literals of the atoms.
  ghost predicate IsClause(atms: set<Term>, clause: Term) {
    clause.Or? && forall t :: t in clause.disjuncts ==> IsLiteral(atms, t)
  }

  ghost predicate AreClauses(atms: set<Term>, clauses: seq<Term>) {
    forall c :: c in clauses ==> IsClause(atms, c)
  }

  lemma NegationsAreLiterals(atms: seq<Term>, m: World, core: seq<Term>)
    requires AllAtoms(ToSet(atms))
    requires forall t :: t in core ==> t in Literals(m, atms)
    ensures IsClause(ToSet(atms), Or(Negations(core)))
  {
    forall n | n in Negations(core)
      ensures IsLiteral(ToSet(atms), n)
    {
      var i :| 0 <= i < |core| && n == MkNot(core[i]);
      assert core[i] in core;
      var j :| 0 <= j < |atms| && core[i] == Atom2Literal(m, atms[j]);
      assert atms[j] in ToSet(atms);
    }
  }

  lemma ClauseLeaves(atms: set<Term>, clause: Term)
    requires AllAtoms(atms) && IsClause(atms, clause)
    ensures Leaves(clause) <= atms
  {
    forall t | t in clause.disjuncts
      ensures Leaves(t) <= atms
    {
      LiteralLeaves(if t in atms then t else t.arg);
    }
    assert Children(clause) == clause.disjuncts;
  }

  lemma LiteralLeaves(a: Term)
    requires IsAtom(a)
    ensures Leaves(a) == {a} && Leaves(Not(a)) == {a}
  {
    assert Children(Not(a)) == [a];
  }

  // A new clause that a model of the rest falsifies excludes one more interpretation of the atoms.
  lemma RemainingShrinks(atms: set<Term>, clauses: seq<Term>, clause: Term, m: World)
    requires AllAtoms(atms) && AreClauses(atms, clauses) && IsClause(atms, clause)
    requires Holds(clauses, m) && !Eval(clause, m)
    ensures AreClauses(atms, clauses + [clause])
    ensures Remaining(atms, clauses + [clause]) < Remaining(atms, clauses)
  {
    var cut := m * atms;
    forall c | c in clauses + [clause]
      ensures Eval(c, cut) == Eval(c, m)
    {
      ClauseLeaves(atms, c);
      EvalLocal(c, cut, m);
    }
    assert clause in clauses + [clause];
    assert Holds(clauses, cut) && !Holds(clauses + [clause], cut);
    assert cut in Remaining(atms, clauses);
    forall w | w in Remaining(atms, clauses + [clause])
      ensures w in Remaining(atms, clauses)
    {
    }
  }

  datatype Result = Clauses(clauses: seq<Term>) | AssertionFailed | ErrorRaised

  // The clauses say what the formula says.
  ghost predicate Equivalent(theory: Term, fml: Term, clauses: seq<Term>) {
    forall w :: Eval(theory, w) ==> (Eval(fml, w) <==> Holds(clauses, w))
  }

  ghost predicate Implied(theory: Term, fml: Term, clauses: seq<Term>) {
    forall w :: Eval(theory, w) && Eval(fml, w) ==> Holds(clauses, w)
  }

  /**
   The literals of the atoms in a model of the negation, cut down to a core that refutes the formula, negated.
   The program asserts that they refute the formula at all.
   */
  method Implicant(atms: seq<Term>, s: Solver, m: World, ghost theory: Term, ghost fml: Term)
    returns (clause: Term, ok: bool)
    requires s.asserted == [theory, fml] && AllAtoms(ToSet(atms)) && ToSet(atms) == AtomsOf(fml)
    requires Eval(theory, m) && !Eval(fml, m)
    modifies s`answers
    ensures |s.answers| > 0 && s.answers[..|s.answers| - 1] == old(s.answers)
    ensures var a := s.answers[|s.answers| - 1];
      (ok <==> a.Unsat?) && (ok ==> clause == Or(Negations(a.core)))
    ensures ok ==> IsClause(AtomsOf(fml), clause) && !Eval(clause, m) && Implied(theory, fml, [clause])
    ensures !ok ==> !Determined(theory, fml)
  {
    var lits := Literals(m, atms);
    var isSat := s.Check(lits);
    if isSat.Sat? {
      LiteralsHold(m, atms, isSat.model);
      assert theory in s.asserted && fml in s.asserted;
      return False, false;
    }
    clause, ok := Or(Negations(isSat.core)), true;
    NegationsAreLiterals(atms, m, isSat.core);
    LiteralsHold(m, atms, m);
    EvalNegations(isSat.core, m);
    forall w | Eval(theory, w) && Eval(fml, w)
      ensures Holds([clause], w)
    {
      EvalNegations(isSat.core, w);
      assert Holds(s.asserted, w);
    }
  }

  // A model that the clauses so far let through although the formula fails; when there is none, they are complete.
  method FalsifyingModel(snot: Solver, ghost theory: Term, ghost fml: Term, ghost clauses: seq<Term>)
    returns (found: bool, m: World)
    requires snot.asserted == [theory, Not(fml)] + clauses && Implied(theory, fml, clauses)
    modifies snot`answers
    ensures found ==> Eval(theory, m) && !Eval(fml, m) && Holds(clauses, m)
    ensures !found ==> Equivalent(theory, fml, clauses)
  {
    var isSat := snot.Check([]);
    if isSat.Unsat? {
      UnsatEquivalent(theory, fml, clauses, isSat.core);
      return false, {};
    }
    assert theory in snot.asserted && Not(fml) in snot.asserted && forall c :: c in clauses ==> c in snot.asserted;
    return true, isSat.model;
  }

  lemma ImpliedSnoc(theory: Term, fml: Term, clauses: seq<Term>, clause: Term)
    requires Implied(theory, fml, clauses) && Implied(theory, fml, [clause])
    ensures Implied(theory, fml, clauses + [clause])
  {
    forall w | Eval(theory, w) && Eval(fml, w)
      ensures Holds(clauses + [clause], w)
    {
      assert Holds([clause], w) && clause in [clause];
    }
  }

  // The clause excludes a model of the negation that those before it let through.
  ghost predicate Needed(theory: Term, fml: Term, clauses: seq<Term>, clause: Term) {
    exists m :: Eval(theory, m) && !Eval(fml, m) && Holds(clauses, m) && !Eval(clause, m)
  }

  ghost predicate EachNeeded(theory: Term, fml: Term, clauses: seq<Term>) {
    forall i :: 0 <= i < |clauses| ==> Needed(theory, fml, clauses[..i], clauses[i])
  }

  lemma NeededSnoc(theory: Term, fml: Term, clauses: seq<Term>, clause: Term, m: World)
    requires EachNeeded(theory, fml, clauses)
    requires Eval(theory, m) && !Eval(fml, m) && Holds(clauses, m) && !Eval(clause, m)
    ensures EachNeeded(theory, fml, clauses + [clause])
  {
    var all := clauses + [clause];
    forall i | 0 <= i < |all|
      ensures Needed(theory, fml, all[..i], all[i])
    {
      if i < |clauses| {
        assert all[..i] == clauses[..i];
      } else {
        assert all[..i] == clauses;
      }
    }
  }

  // The clauses found so far follow from the formula, and none of them from those before it.
  ghost predicate Extracting(theory: Term, fml: Term, clauses: seq<Term>) {
    AreClauses(AtomsOf(fml), clauses) && EachNeeded(theory, fml, clauses) && Implied(theory, fml, clauses)
  }

  datatype Next = NoModel | Undetermined | Clause(clause: Term)

  // One turn of the loop over the models of the negation.
  method NextClause(atms: seq<Term>, s: Solver, snot: Solver, ghost theory: Term, ghost fml: Term,
                    ghost clauses: seq<Term>) returns (next: Next)
    requires s != snot && AllAtoms(ToSet(atms)) && ToSet(atms) == AtomsOf(fml)
    requires s.asserted == [theory, fml] && snot.asserted == [theory, Not(fml)] + clauses
    requires Extracting(theory, fml, clauses)
    modifies s`answers, snot
    ensures next.NoModel? ==> Equivalent(theory, fml, clauses)
    ensures next.Undetermined? ==> !Determined(theory, fml)
    ensures next.Clause? ==> Extracting(theory, fml, clauses + [next.clause])
    ensures next.Clause? ==> snot.asserted == [theory, Not(fml)] + (clauses + [next.clause])
    ensures next.Clause? ==> Remaining(AtomsOf(fml), clauses + [next.clause]) < Remaining(AtomsOf(fml), clauses)
  {
    var found, m := FalsifyingModel(snot, theory, fml, clauses);
    if !found {
      return NoModel;
    }
    var clause, ok := Implicant(atms, s, m, theory, fml);
    if !ok {
      return Undetermined;
    }
    RemainingShrinks(AtomsOf(fml), clauses, clause, m);
    ImpliedSnoc(theory, fml, clauses, clause);
    NeededSnoc(theory, fml, clauses, clause, m);
    AppendSnoc([theory, Not(fml)], clauses, clause);
    snot.Add(clause);
    return Clause(clause);
  }

  // The loop over the models of the negation.
  method EnumerateModels(atms: seq<Term>, s: Solver, snot: Solver, ghost theory: Term, ghost fml: Term)
    returns (r: Result)
    requires s != snot && AllAtoms(ToSet(atms)) && ToSet(atms) == AtomsOf(fml)
    requires s.asserted == [theory, fml] && snot.asserted == [theory, Not(fml)]
    modifies s`answers, snot
    ensures !r.ErrorRaised?
    ensures r.Clauses? ==> Equivalent(theory, fml, r.clauses) && Extracting(theory, fml, r.clauses)
    ensures r.AssertionFailed? ==> !Determined(theory, fml)
  {
    var clauses: seq<Term> := [];
    while true
      invariant s.asserted == [theory, fml] && snot.asserted == [theory, Not(fml)] + clauses
      invariant Extracting(theory, fml, clauses)
      decreases Remaining(AtomsOf(fml), clauses)
    {
      var next := NextClause(atms, s, snot, theory, fml, clauses);
      match next
      case NoModel => return Clauses(clauses);
      case Undetermined => return AssertionFailed;
      case Clause(clause) => clauses := clauses + [clause];
    }
  }

  /**
   It raises an error if and only if some subterm of the formula is an equality.  For the other formulas the clauses are
   disjunctions of literals over the formula's atoms, together equivalent to the formula, and none of them follows from
   those before it.  The assertion fails only for a formula that its atoms do not determine, so never without
   quantifiers, and never when its quantified leaves make no difference.
   */
  method ToCnf(theory: Term, fml: Term) returns (r: Result)
    ensures r.Clauses? ==> Equivalent(theory, fml, r.clauses) && AreClauses(AtomsOf(fml), r.clauses)
    ensures r.Clauses? ==> EachNeeded(theory, fml, r.clauses)
    ensures r.ErrorRaised? <==> HasEquality(fml)
    ensures r.AssertionFailed? ==> !Determined(theory, fml)
    ensures !HasEquality(fml) && (NoQuantifiers(fml) || OnlyAtomsMatter(fml)) ==> r.Clauses?
  {
    var collected := Atoms(fml);
    if collected.Raised? {
      return ErrorRaised;
    }
    var atmSet := collected.value;
    CnfExists(theory, fml);
    AtomsAreAtoms(fml);
    var atms := ListOf(atmSet);
    var s := new Solver(theory);
    var snot := new Solver(theory);
    snot.Add(Not(fml));
    s.Add(fml);
    r := EnumerateModels(atms, s, snot, theory, fml);
  }

  lemma UnsatEquivalent(theory: Term, fml: Term, clauses: seq<Term>, core: seq<Term>)
    requires Implied(theory, fml, clauses)
    requires forall t :: t !in core
    requires forall w :: Holds([theory, Not(fml)] + clauses, w) ==> !Holds(core, w)
    ensures Equivalent(theory, fml, clauses)
  {
    forall w | Eval(theory, w) && Holds(clauses, w)
      ensures Eval(fml, w)
    {
      if !Eval(fml, w) {
        assert Holds([theory, Not(fml)] + clauses, w);
      }
    }
  }

  // Some interpretation agrees with the model on the atoms and satisfies the formula all the same.
  ghost predicate AssertionCanFail(theory: Term, fml: Term, m: World) {
    exists w :: Eval(theory, w) && Eval(fml, w) && AgreeOn(AtomsOf(fml), m, w)
  }

  // What the formula says does not depend on this leaf.
  ghost predicate Irrelevant(fml: Term, q: Term) {
    forall w :: Eval(fml, w + {q}) == Eval(fml, w - {q})
  }

  // The leaves that are not collected as atoms, which are quantified formulas, make no difference.
  ghost predicate OnlyAtomsMatter(fml: Term) {
    forall q :: q in Leaves(fml) - AtomsOf(fml) ==> Irrelevant(fml, q)
  }

  // Irrelevant leaves can be switched one after the other.
  lemma {:induction false} SwitchLeaves(fml: Term, qs: set<Term>, w: World, v: World)
    requires forall q :: q in qs ==> Irrelevant(fml, q)
    requires AgreeOn(Leaves(fml) - qs, w, v)
    ensures Eval(fml, w) == Eval(fml, v)
    decreases qs
  {
    if qs == {} {
      EvalLocal(fml, w, v);
    } else {
      var q :| q in qs;
      var w' := if q in v then w + {q} else w - {q};
      assert w == w + {q} || w == w - {q};
      assert Irrelevant(fml, q);
      SwitchLeaves(fml, qs - {q}, w', v);
    }
  }

  lemma AtomsDecide(theory: Term, fml: Term)
    requires OnlyAtomsMatter(fml)
    ensures Determined(theory, fml)
  {
    forall w, v | AgreeOn(AtomsOf(fml), w, v)
      ensures Eval(fml, w) == Eval(fml, v)
    {
      SwitchLeaves(fml, Leaves(fml) - AtomsOf(fml), w, v);
    }
  }

  lemma RelevantLeafFails(fml: Term, q: Term)
    requires q !in AtomsOf(fml) && !Irrelevant(fml, q)
    ensures exists m :: !Eval(fml, m) && AssertionCanFail(True, fml, m)
  {
    var w :| Eval(fml, w + {q}) != Eval(fml, w - {q});
    var yes, no := w + {q}, w - {q};
    if Eval(fml, no) {
      yes, no := no, yes;
    }
    assert Eval(True, yes) && AgreeOn(AtomsOf(fml), no, yes);
    assert AssertionCanFail(True, fml, no);
  }

  /**
   Without a theory, the assertion holds in every model of the negation if and only if the formula does not depend on
   any of its quantified leaves.
   */
  lemma AssertionExact(fml: Term)
    ensures (forall m :: !Eval(fml, m) ==> !AssertionCanFail(True, fml, m)) <==> OnlyAtomsMatter(fml)
  {
    if OnlyAtomsMatter(fml) {
      AtomsDecide(True, fml);
    } else {
      var q :| q in Leaves(fml) - AtomsOf(fml) && !Irrelevant(fml, q);
      RelevantLeafFails(fml, q);
    }
  }

  /** A formula that says something of all values of a bound variable makes the assertion fail. */
  lemma QuantifierFails(id: nat, p: nat, x: nat)
    ensures var fml := Quantified(id, App(p, true, [App(x, false, [])]));
      !OnlyAtomsMatter(fml) && !Eval(fml, {}) && AssertionCanFail(True, fml, {})
  {
    var atom := App(p, true, [App(x, false, [])]);
    var fml := Quantified(id, atom);
    assert fml !in AtomsOf(fml) by {
      AtomsAreAtoms(fml);
    }
    assert AgreeOn(AtomsOf(fml), {}, {fml}) && Eval(True, {fml}) && Eval(fml, {fml});
    assert !Irrelevant(fml, fml) by {
      assert Eval(fml, {} + {fml}) && !Eval(fml, {} - {fml});
    }
    assert Leaves(fml) == {fml};
  }

  lemma CnfExists(theory: Term, fml: Term)
    ensures NoQuantifiers(fml) || OnlyAtomsMatter(fml) ==> Determined(theory, fml)
  {
    if NoQuantifiers(fml) {
      QuantifierFreeDetermined(theory, fml);
    } else if OnlyAtomsMatter(fml) {
      AtomsDecide(theory, fml);
    }
  }
}
