/**
 The satisfiability solver the optimisation procedures call.  Its procedures see only the contracts
 below, so what is proved about a caller holds for every solver that meets them: whichever model it
 picks and whichever core it extracts.  The bodies are exhaustive searches that witness that the
 contracts can be met.
 */
module Oracle {
  import opened Formulas
  import opened Lists

  datatype Option<T> = None | Some(value: T)

  datatype Answer = Sat(model: Assignment) | Unsat(core: seq<Formula>)

  // The answer of a solver that runs under a time limit.
  datatype TimedAnswer = TimedSat(model: Assignment) | TimedUnsat(core: set<Formula>) | Unknown

  // A check under a time limit, with what was answered.
  datatype Query = Query(assumptions: set<Formula>, answer: TimedAnswer)

  // `core` contradicts the assertions.
  ghost predicate Refutes(asserted: seq<Formula>, core: set<Formula>) {
    forall a :: Holds(asserted, a) ==> !HoldsAll(core, a)
  }

  // `f` follows from the assertions and `fs`.
  ghost predicate Entails(asserted: seq<Formula>, fs: set<Formula>, f: Formula) {
    forall a :: Holds(asserted, a) && HoldsAll(fs, a) ==> Eval(f, a)
  }

  ghost predicate CorrectAnswer(asserted: seq<Formula>, assumptions: seq<Formula>, answer: Answer) {
    match answer
    case Sat(m) => Holds(asserted, m) && Holds(assumptions, m)
    case Unsat(core) =>
      && Distinct(core)
      && (forall f :: f in core ==> f in assumptions)
      && (forall a :: Holds(asserted, a) ==> !Holds(core, a))
  }

  ghost predicate CorrectTimedAnswer(asserted: seq<Formula>, assumptions: set<Formula>, answer: TimedAnswer) {
    match answer
    case TimedSat(m) => Holds(asserted, m) && HoldsAll(assumptions, m)
    case TimedUnsat(core) => core <= assumptions && Refutes(asserted, core)
    case Unknown => true
  }

  function Dedup(xs: seq<Formula>): (ys: seq<Formula>)
    ensures Distinct(ys)
    ensures forall x :: x in ys <==> x in xs
  {
    if xs == [] then []
    else
      var rest := Dedup(xs[1..]);
      if xs[0] in rest then rest else [xs[0]] + rest
  }

  function SymbolsOf(fs: set<Formula>): set<Symbol> {
    set f, s | f in fs && s in Symbols(f) :: s
  }

  // An assignment can be cut down to the symbols of the formulas it is meant for.
  lemma HoldsCutDown(fs: set<Formula>, a: Assignment)
    requires HoldsAll(fs, a)
    ensures HoldsAll(fs, a * SymbolsOf(fs))
  {
    forall f | f in fs
      ensures Eval(f, a * SymbolsOf(fs))
    {
      assert Symbols(f) <= SymbolsOf(fs);
      EvalLocal(f, a, a * SymbolsOf(fs));
    }
  }

  class Solver {
    var asserted: seq<Formula>
    // what the solver has answered so far, without and with a time limit
    ghost var answers: seq<Answer>
    ghost var log: seq<Query>

    constructor ()
      ensures asserted == []
    {
      asserted := [];
    }

    method Assert(f: Formula)
      modifies this`asserted
      ensures asserted == old(asserted) + [f]
    {
      asserted := asserted + [f];
    }

    method Check(assumptions: seq<Formula>) returns (answer: Answer)
      modifies this`answers
      ensures CorrectAnswer(asserted, assumptions, answer)
      ensures answers == old(answers) + [answer]
    {
      var goal := ToSet(asserted + assumptions);
      var symbols := SymbolsOf(goal);
      if m: Assignment :| m <= symbols && forall f | f in goal :: Eval(f, m) {
        assert forall f :: f in asserted || f in assumptions ==> f in goal;
        answer := Sat(m);
      } else {
        answer := Unsat(Dedup(assumptions));
        forall a | Holds(asserted, a)
          ensures !Holds(answer.core, a)
        {
          assert a * symbols <= symbols;
          if Holds(answer.core, a) {
            HoldsCutDown(goal, a);
            assert false;
          }
        }
      }
      answers := answers + [answer];
    }

    method CheckSet(assumptions: set<Formula>) returns (answer: TimedAnswer)
      ensures CorrectTimedAnswer(asserted, assumptions, answer) && !answer.Unknown?
    {
      var goal := ToSet(asserted) + assumptions;
      var symbols := SymbolsOf(goal);
      if m: Assignment :| m <= symbols && forall f | f in goal :: Eval(f, m) {
        answer := TimedSat(m);
      } else {
        answer := TimedUnsat(assumptions);
        forall a | Holds(asserted, a)
          ensures !HoldsAll(assumptions, a)
        {
          assert a * symbols <= symbols;
          if HoldsAll(assumptions, a) {
            HoldsCutDown(goal, a);
            assert false;
          }
        }
      }
    }

    method CheckTimed(assumptions: set<Formula>) returns (answer: TimedAnswer)
      modifies this`log
      ensures CorrectTimedAnswer(asserted, assumptions, answer)
      ensures log == old(log) + [Query(assumptions, answer)]
    {
      if * {
        answer := Unknown;
      } else {
        answer := CheckSet(assumptions);
      }
      log := log + [Query(assumptions, answer)];
    }
  }

  // The counter behind fresh constants.
  class Context {
    var next: nat

    constructor (first: nat)
      ensures next == first
    {
      next := first;
    }

    method MkFresh() returns (v: Formula)
      modifies this
      ensures v == Var(Const(old(next)))
      ensures next == old(next) + 1
    {
      v := Var(Const(next));
      next := next + 1;
    }
  }
}
